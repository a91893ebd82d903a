/** Vitter's Algorithm R: a fixed array of slots filled by a stream of updates. */
module UniformSample {
  import Snapshot

  /** The write an update makes under the lock: `ticket` is its (one-based) arrival number. */
  function Placed<T>(slots: seq<T>, ticket: nat, value: T, draw: nat): (r: seq<T>)
    requires ticket > 0
    ensures |r| == |slots|
  {
    if ticket <= |slots| then slots[ticket - 1 := value]
    else if draw < |slots| then slots[draw := value]
    else slots
  }

  /** The first k updates need no random draw. */
  function DrawCount(k: nat, n: nat): nat {
    if n <= k then 0 else n - k
  }

  /** The slots after updating with all `items`, one draw for each item beyond the k-th. */
  function Run<T>(k: nat, blank: T, items: seq<T>, draws: seq<nat>): (r: seq<T>)
    requires |draws| == DrawCount(k, |items|)
    ensures |r| == k
  {
    var n := |items|;
    if n == 0 then seq(k, _ => blank)
    else if n <= k then Placed(Run(k, blank, items[..n - 1], draws), n, items[n - 1], 0)
    else Placed(Run(k, blank, items[..n - 1], draws[..n - 1 - k]), n, items[n - 1], draws[n - 1 - k])
  }

  /** Draw i of a run is uniform over the arrivals so far, the new one included. */
  ghost predicate InRange(k: nat, draws: seq<nat>) {
    forall j :: 0 <= j < |draws| ==> draws[j] <= k + j
  }

  function Positions(n: nat): (r: seq<nat>)
    ensures |r| == n
  {
    seq(n, i => i)
  }

  /** Which arrival each slot holds. */
  function Survivors(k: nat, n: nat, draws: seq<nat>): (r: seq<nat>)
    requires |draws| == DrawCount(k, n)
    ensures |r| == k
  {
    Run(k, 0, Positions(n), draws)
  }

  lemma {:induction false} SurvivorsStep(k: nat, n: nat, draws: seq<nat>)
    requires n > 0 && |draws| == DrawCount(k, n)
    ensures Survivors(k, n, draws)
         == if n <= k then Survivors(k, n - 1, draws)[n - 1 := n - 1]
            else if draws[n - 1 - k] < k
              then Survivors(k, n - 1, draws[..n - 1 - k])[draws[n - 1 - k] := n - 1]
            else Survivors(k, n - 1, draws[..n - 1 - k])
  {
    assert Positions(n)[..n - 1] == Positions(n - 1);
  }

  /** Below `Size()`, slots hold arrivals, no arrival twice; the first k arrivals fill the slots in order. */
  lemma {:induction false} SurvivorsDistinct(k: nat, n: nat, draws: seq<nat>)
    requires |draws| == DrawCount(k, n)
    ensures var s := Survivors(k, n, draws);
      && (forall i :: 0 <= i < k && i < n ==> s[i] < n)
      && (forall i, j :: 0 <= i < j < k && j < n ==> s[i] != s[j])
      && (n <= k ==> forall i :: 0 <= i < n ==> s[i] == i)
  {
    if n > 0 {
      SurvivorsStep(k, n, draws);
      SurvivorsDistinct(k, n - 1, if n <= k then draws else draws[..n - 1 - k]);
    }
  }

  /** The slots of any stream are its items at the surviving positions: choices ignore the values. */
  lemma {:induction false} SlotsHoldSurvivors<T>(k: nat, blank: T, items: seq<T>, draws: seq<nat>)
    requires |draws| == DrawCount(k, |items|)
    ensures var s := Survivors(k, |items|, draws);
      forall j :: 0 <= j < k ==>
        && (j < |items| ==> s[j] < |items| && Run(k, blank, items, draws)[j] == items[s[j]])
        && (j >= |items| ==> Run(k, blank, items, draws)[j] == blank)
  {
    var n := |items|;
    SurvivorsDistinct(k, n, draws);
    if n > 0 {
      SurvivorsStep(k, n, draws);
      SlotsHoldSurvivors(k, blank, items[..n - 1], if n <= k then draws else draws[..n - 1 - k]);
    }
  }

  function Select<T>(items: seq<T>, picks: seq<nat>): seq<T>
    requires forall i :: 0 <= i < |picks| ==> picks[i] < |items|
  {
    seq(|picks|, i requires 0 <= i < |picks| => items[picks[i]])
  }

  class UniformSample {
    const values: array<int>
    var count: nat
    ghost var history: seq<int>  // every value since the last clear
    ghost var draws: seq<nat>    // every random draw made since the last clear

    ghost predicate Valid()
      reads this, values
    {
      && count == |history|
      && |draws| == DrawCount(values.Length, count)
      && InRange(values.Length, draws)
      && values[..] == Run(values.Length, 0, history, draws)
    }

    constructor (reservoirSize: nat)
      ensures Valid() && fresh(values)
      ensures values.Length == reservoirSize && history == [] && draws == []
    {
      values := new int[reservoirSize](_ => 0);
      count, history, draws := 0, [], [];
    }

    method Clear()
      requires Valid()
      modifies this, values
      ensures Valid() && history == [] && draws == []
    {
      for i := 0 to values.Length
        invariant forall j :: 0 <= j < i ==> values[j] == 0
      {
        values[i] := 0;
      }
      count, history, draws := 0, [], [];
    }

    function Size(): (n: nat)
      requires Valid()
      reads this, values
      ensures n == if |history| <= values.Length then |history| else values.Length
    {
      if count < values.Length then count else values.Length
    }

    /** `draw` is what the generator returns for 0..count'-1; it is looked at only when the slots are full. */
    method Update(value: int, draw: nat)
      requires Valid() && draw <= count
      modifies this, values
      ensures Valid()
      ensures history == old(history) + [value]
      ensures draws == if old(count) < values.Length then old(draws) else old(draws) + [draw]
      ensures values[..] == Placed(old(values[..]), count, value, draw)
    {
      count := count + 1;
      if count <= values.Length {
        values[count - 1] := value;
      } else {
        if draw < values.Length {
          values[draw] := value;
        }
        draws := draws + [draw];
        assert draws[..count - 1 - values.Length] == old(draws);
      }
      history := history + [value];
      assert history[..count - 1] == old(history);
    }

    /**
     * A snapshot holds exactly the values of the surviving arrivals, all min(k,n) of them: no placeholder, no arrival
     * twice, none left out.
     */
    method GetSnapshot() returns (s: Snapshot.Snapshot)
      requires Valid()
      ensures s.Valid() && fresh(s)
      ensures s.values.Length == if |history| <= values.Length then |history| else values.Length
      ensures var n := if |history| <= values.Length then |history| else values.Length;
        var picks := Survivors(values.Length, |history|, draws)[..n];
        && (forall i :: 0 <= i < n ==> picks[i] < |history|)
        && (forall i, j :: 0 <= i < j < n ==> picks[i] != picks[j])
        && multiset(s.values[..]) == multiset(Select(history, picks))
      ensures unchanged(this) && unchanged(values)
    {
      SlotsHoldSurvivors(values.Length, 0, history, draws);
      SurvivorsDistinct(values.Length, count, draws);
      ghost var picks := Survivors(values.Length, count, draws)[..Size()];
      assert values[..Size()] == Select(history, picks);
      s := new Snapshot.Snapshot(values[..Size()]);
      assert |multiset(s.values[..])| == |s.values[..]|;
      assert |multiset(values[..Size()])| == Size();
    }
  }
}

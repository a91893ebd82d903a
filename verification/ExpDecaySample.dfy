/** The forward-decaying priority reservoir: a sorted map whose landmark moves. Times are in nanoseconds. */
module ExpDecaySample {
  import Snapshot

  const SECOND := 1_000_000_000
  const RESCALE_THRESHOLD := 3600 * SECOND

  /** duration_cast to whole seconds: truncation toward zero. */
  function Seconds(nanos: int): int {
    if nanos >= 0 then nanos / SECOND else -(-nanos / SECOND)
  }

  /** The floating-point work: std::exp(alpha*dur)/u, and key*std::exp(-alpha*dur). */
  datatype Arithmetic = Arithmetic(priority: (int, real) -> real, decay: (real, int) -> real)

  datatype Item = Item(value: int, timestamp: int, draw: real)

  datatype State = State(count: nat, startTime: int, nextScaleTime: int, values: map<real, int>)

  // ---------- Ordered access to the map ----------

  ghost predicate IsMin(m: map<real, int>, k: real) {
    k in m && forall j :: j in m ==> k <= j
  }

  ghost predicate IsMax(m: map<real, int>, k: real) {
    k in m && forall j :: j in m ==> j <= k
  }

  lemma Member<T>(s: set<T>) returns (x: T)
    requires s != {}
    ensures x in s
  {
    x :| x in s;
  }

  lemma {:induction false} LeastAndGreatest(s: set<real>) returns (lo: real, hi: real)
    requires s != {}
    ensures lo in s && forall j :: j in s ==> lo <= j
    ensures hi in s && forall j :: j in s ==> j <= hi
    decreases |s|
  {
    var x := Member(s);
    lo, hi := x, x;
    assert forall j :: j in s ==> j == x || j in s - {x};
    if s - {x} != {} {
      var l, h := LeastAndGreatest(s - {x});
      lo, hi := if l <= x then l else x, if x <= h then h else x;
    }
  }

  lemma ExtremesExist(m: map<real, int>)
    requires m != map[]
    ensures exists k :: IsMin(m, k)
    ensures exists k :: IsMax(m, k)
  {
    assert m.Keys != {};
    var lo, hi := LeastAndGreatest(m.Keys);
    assert IsMin(m, lo) && IsMax(m, hi);
  }

  ghost function MinKey(m: map<real, int>): (k: real)
    requires m != map[]
    ensures IsMin(m, k)
  {
    ExtremesExist(m);
    var k :| IsMin(m, k);
    k
  }

  ghost function MaxKey(m: map<real, int>): (k: real)
    requires m != map[]
    ensures IsMax(m, k)
  {
    ExtremesExist(m);
    var k :| IsMax(m, k);
    k
  }

  lemma RemoveShrinks(m: map<real, int>, k: real)
    requires k in m
    ensures |m - {k}| == |m| - 1
  {
  }

  // ---------- Rescaling ----------

  /** The new key of each old one when the landmark moves by `dur` seconds. */
  function Decaying(a: Arithmetic, dur: int): real -> real {
    key => a.decay(key, dur)
  }

  /** The map rebuilt in ascending key order: where new keys collide, the last write wins. */
  ghost function Rescaled(m: map<real, int>, f: real -> real): map<real, int>
    decreases |m|
  {
    if m == map[] then map[]
    else
      var k := MaxKey(m);
      RemoveShrinks(m, k);
      Rescaled(m - {k}, f)[f(k) := m[k]]
  }

  /** k is the largest key of m that f sends to its image. */
  ghost predicate LargestPreimage(m: map<real, int>, f: real -> real, k: real) {
    k in m && forall j :: j in m && f(j) == f(k) ==> j <= k
  }

  /** The new keys are the images of the old ones, and each carries the value of its largest old key. */
  lemma {:induction false} RescaledKeepsLargest(m: map<real, int>, f: real -> real)
    ensures forall k :: k in m ==> f(k) in Rescaled(m, f)
    ensures forall x :: x in Rescaled(m, f) ==> exists k :: k in m && f(k) == x
    ensures forall k :: LargestPreimage(m, f, k) ==> f(k) in Rescaled(m, f) && Rescaled(m, f)[f(k)] == m[k]
    decreases |m|
  {
    if m != map[] {
      var top := MaxKey(m);
      var rest := m - {top};
      RemoveShrinks(m, top);
      RescaledKeepsLargest(rest, f);
      forall x | x in Rescaled(m, f) ensures exists k :: k in m && f(k) == x {
        if x != f(top) {
          var k :| k in rest && f(k) == x;
          assert k in m;
        }
      }
      forall k | LargestPreimage(m, f, k)
        ensures f(k) in Rescaled(m, f) && Rescaled(m, f)[f(k)] == m[k]
      {
        if k != top && f(k) != f(top) {
          assert LargestPreimage(rest, f, k);
        }
      }
    }
  }

  lemma {:induction false} RescaledSize(m: map<real, int>, f: real -> real)
    ensures |Rescaled(m, f)| <= |m|
    ensures m != map[] ==> Rescaled(m, f) != map[]
    decreases |m|
  {
    if m != map[] {
      var k := MaxKey(m);
      RemoveShrinks(m, k);
      RescaledSize(m - {k}, f);
      InsertSize(Rescaled(m - {k}, f), f(k), m[k]);
    }
  }

  lemma InsertSize(m: map<real, int>, k: real, v: int)
    ensures |m[k := v]| == if k in m then |m| else |m| + 1
    ensures m[k := v] != map[]
  {
  }

  // ---------- Updating ----------

  ghost function RescaledIfNeeded(a: Arithmetic, s: State, now: int): State {
    if s.nextScaleTime < now then
      var values := Rescaled(s.values, Decaying(a, Seconds(now - s.startTime)));
      State(|values|, now, now + RESCALE_THRESHOLD, values)
    else s
  }

  /** The write of an update, once the priority is known. */
  ghost function Inserted(k: nat, s: State, priority: real, value: int): State {
    s.(count := s.count + 1,
       values :=
         if s.count + 1 <= k then s.values[priority := value]
         else if s.values != map[] && MinKey(s.values) < priority && priority !in s.values then
           s.values[priority := value] - {MinKey(s.values)}
         else s.values)
  }

  ghost function Updated(a: Arithmetic, k: nat, s: State, item: Item): State {
    var s' := RescaledIfNeeded(a, s, item.timestamp);
    Inserted(k, s', a.priority(Seconds(item.timestamp - s'.startTime), item.draw), item.value)
  }

  /** Truncation goes toward zero: at most the whole of the time, and less than a second of it is lost. */
  lemma SecondsTruncates(nanos: int)
    ensures nanos >= 0 ==> nanos - 1_000_000_000 < Seconds(nanos) * 1_000_000_000 <= nanos
    ensures nanos <= 0 ==> nanos <= Seconds(nanos) * 1_000_000_000 < nanos + 1_000_000_000
  {
  }

  function Empty(now: int): State {
    State(0, now, now + RESCALE_THRESHOLD, map[])
  }

  /** The reservoir of k slots after the items, cleared at time `origin`. */
  ghost function Run(a: Arithmetic, k: nat, origin: int, items: seq<Item>): State {
    if items == [] then Empty(origin)
    else Updated(a, k, Run(a, k, origin, items[..|items| - 1]), items[|items| - 1])
  }

  lemma RunSnoc(a: Arithmetic, k: nat, origin: int, items: seq<Item>, x: Item)
    ensures Run(a, k, origin, items + [x]) == Updated(a, k, Run(a, k, origin, items), x)
  {
  }

  function SizeOf(k: nat, s: State): nat {
    if k <= s.count then k else s.count
  }

  /** What holds for any arithmetic, with keys collapsing and priorities colliding as they may. */
  ghost predicate Good(k: nat, s: State) {
    && |s.values| <= SizeOf(k, s)
    && (s.count > 0 ==> s.values != map[])
    && s.nextScaleTime == s.startTime + RESCALE_THRESHOLD
  }

  lemma InsertedGood(k: nat, s: State, priority: real, value: int)
    requires k > 0 && Good(k, s)
    ensures Good(k, Inserted(k, s, priority, value)) && Inserted(k, s, priority, value).values != map[]
  {
  }

  lemma RescaledGood(a: Arithmetic, k: nat, s: State, now: int)
    requires Good(k, s)
    ensures Good(k, RescaledIfNeeded(a, s, now))
    ensures s.nextScaleTime < now ==> RescaledIfNeeded(a, s, now).count == |RescaledIfNeeded(a, s, now).values|
  {
    RescaledSize(s.values, Decaying(a, Seconds(now - s.startTime)));
    hide Rescaled, Seconds;
  }

  /** Every reachable reservoir, whatever the arithmetic: within size() and k, and never empty once updated. */
  lemma {:induction false} ReservoirBounds(a: Arithmetic, k: nat, origin: int, items: seq<Item>)
    requires k > 0
    ensures Good(k, Run(a, k, origin, items))
    ensures |Run(a, k, origin, items).values| <= SizeOf(k, Run(a, k, origin, items)) <= k
    ensures items != [] ==> Run(a, k, origin, items).values != map[]
  {
    GoodBounds(k, Run(a, k, origin, items));
    hide Rescaled, RescaledIfNeeded, Inserted, Good, Seconds;
    if items == [] {
      EmptyGood(k, origin);
    } else {
      var s, last := Run(a, k, origin, items[..|items| - 1]), items[|items| - 1];
      ReservoirBounds(a, k, origin, items[..|items| - 1]);
      RescaledGood(a, k, s, last.timestamp);
      var s' := RescaledIfNeeded(a, s, last.timestamp);
      InsertedGood(k, s', a.priority(Seconds(last.timestamp - s'.startTime), last.draw), last.value);
    }
  }

  lemma GoodBounds(k: nat, s: State)
    ensures Good(k, s) ==> |s.values| <= SizeOf(k, s) <= k
  {
  }

  lemma EmptyGood(k: nat, now: int)
    ensures Good(k, Empty(now))
  {
  }

  // ---------- The class ----------

  /** The values in ascending order of their keys. */
  ghost function Readout(m: map<real, int>): (r: seq<int>)
    ensures |r| == |m|
    decreases |m|
  {
    if m == map[] then []
    else
      var k := MinKey(m);
      RemoveShrinks(m, k);
      [m[k]] + Readout(m - {k})
  }

  function Carriers(m: map<real, int>, v: int): set<real> {
    set k | k in m && m[k] == v
  }

  lemma CarriersStep(m: map<real, int>, k: real, v: int)
    requires k in m
    ensures |Carriers(m, v)| == |Carriers(m - {k}, v)| + if m[k] == v then 1 else 0
  {
    var rest := Carriers(m - {k}, v);
    assert k !in rest;
    assert Carriers(m, v) == if m[k] == v then rest + {k} else rest;
  }

  /** A readout lists each value once for every key that carries it. */
  lemma {:induction false} ReadoutCounts(m: map<real, int>, v: int)
    ensures multiset(Readout(m))[v] == |Carriers(m, v)|
    decreases |m|
  {
    if m == map[] {
      assert Carriers(m, v) == {};
    } else {
      var k := MinKey(m);
      RemoveShrinks(m, k);
      hide Carriers;
      ReadoutCounts(m - {k}, v);
      CarriersStep(m, k, v);
    }
  }

  class ExpDecaySample {
    const arithmetic: Arithmetic
    const reservoirSize: nat
    var count: nat
    var startTime: int
    var nextScaleTime: int
    var values: map<real, int>
    ghost var origin: int         // the time of the last clear
    ghost var history: seq<Item>  // every item since then

    ghost function Value(): State
      reads this
    {
      State(count, startTime, nextScaleTime, values)
    }

    ghost predicate Valid()
      reads this
    {
      reservoirSize > 0 && Value() == Run(arithmetic, reservoirSize, origin, history)
    }

    constructor (arithmetic: Arithmetic, reservoirSize: nat, now: int)
      requires reservoirSize > 0
      ensures Valid() && this.arithmetic == arithmetic && this.reservoirSize == reservoirSize
      ensures Value() == State(0, now, now + 3_600_000_000_000, map[])
      ensures origin == now && history == []
    {
      this.arithmetic, this.reservoirSize := arithmetic, reservoirSize;
      count, startTime, nextScaleTime, values := 0, now, now + RESCALE_THRESHOLD, map[];
      origin, history := now, [];
    }

    method Clear(now: int)
      requires Valid()
      modifies this
      ensures Valid() && origin == now && history == []
      ensures Value() == State(0, now, now + 3_600_000_000_000, map[])
    {
      values := map[];
      count := 0;
      startTime := now;
      nextScaleTime := startTime + RESCALE_THRESHOLD;
      origin, history := now, [];
    }

    function Size(): (n: nat)
      reads this
      ensures n == SizeOf(reservoirSize, Value()) && n <= reservoirSize && n <= count
      ensures n == reservoirSize || n == count
    {
      if reservoirSize <= count then reservoirSize else count
    }

    /** `draw` is what the generator returns for (0,1). */
    method Update(value: int, timestamp: int, draw: real)
      requires Valid()
      modifies this
      ensures Valid()
      ensures origin == old(origin) && history == old(history) + [Item(value, timestamp, draw)]
    {
      hide Run, Inserted, RescaledIfNeeded, Good, Seconds;
      ReservoirBounds(arithmetic, reservoirSize, origin, history);
      RescaledGood(arithmetic, reservoirSize, Value(), timestamp);
      RunSnoc(arithmetic, reservoirSize, origin, history, Item(value, timestamp, draw));
      RescaleIfNeeded(timestamp);
      var dur := Seconds(timestamp - startTime);
      var priority := arithmetic.priority(dur, draw);
      Insert(priority, value);
      history := history + [Item(value, timestamp, draw)];
    }

    /** The second half of update, once the priority is known. */
    method Insert(priority: real, value: int)
      requires reservoirSize > 0 && Good(reservoirSize, Value())
      modifies this
      ensures Value() == Inserted(reservoirSize, old(Value()), priority, value)
      ensures count == old(count) + 1 && startTime == old(startTime) && nextScaleTime == old(nextScaleTime)
      ensures old(count) < reservoirSize ==> values == old(values)[priority := value]
      ensures old(count) >= reservoirSize && priority in old(values) ==> values == old(values)
      ensures old(count) >= reservoirSize && priority !in old(values) ==> forall lo :: IsMin(old(values), lo) ==>
        values == if lo < priority then old(values)[priority := value] - {lo} else old(values)
      ensures origin == old(origin) && history == old(history)
    {
      count := count + 1;
      if count <= reservoirSize {
        values := values[priority := value];
      } else {
        var first := First(values);
        assert first == MinKey(values);
        if first < priority && priority !in values {
          values := values[priority := value] - {first};
        }
      }
    }

    method RescaleIfNeeded(now: int)
      modifies this
      ensures Value() == RescaledIfNeeded(arithmetic, old(Value()), now)
      ensures old(nextScaleTime) < now ==> startTime == now && nextScaleTime == now + 3_600_000_000_000
      ensures old(nextScaleTime) >= now ==> Value() == old(Value())
      ensures origin == old(origin) && history == old(history)
    {
      hide Rescaled, Seconds, Decaying;
      if nextScaleTime < now {
        nextScaleTime := now + RESCALE_THRESHOLD;
        var prevStartTime := startTime;
        startTime := now;
        Rescale(prevStartTime);
      }
    }

    method Rescale(prevStartTime: int)
      modifies this
      ensures values == Rescaled(old(values), Decaying(arithmetic, Seconds(startTime - prevStartTime)))
      ensures count == |values|
      ensures startTime == old(startTime) && nextScaleTime == old(nextScaleTime)
      ensures origin == old(origin) && history == old(history)
    {
      hide Rescaled, Seconds, Decaying;
      var oldValues := values;
      values := Rebuild(arithmetic, oldValues, Seconds(startTime - prevStartTime));
      count := |values|;
    }

    method GetSnapshot() returns (s: Snapshot.Snapshot)
      requires Valid()
      ensures s.Valid() && fresh(s)
      ensures s.values.Length == |values| <= Size()
      ensures multiset(s.values[..]) == multiset(Readout(values))
    {
      ReservoirBounds(arithmetic, reservoirSize, origin, history);
      var vals := Collect(values);
      s := new Snapshot.Snapshot(vals);
      assert |multiset(s.values[..])| == |s.values[..]|;
    }
  }

  /** The loop of getSnapshot: the values in ascending order of their keys. */
  method Collect(values: map<real, int>) returns (vals: seq<int>)
    ensures vals == Readout(values)
  {
    assert Readout(map[]) == [];
    hide Readout, MinKey;
    vals := [];
    var remaining := values;
    while remaining != map[]
      invariant vals + Readout(remaining) == Readout(values)
      decreases |remaining|
    {
      var k := First(remaining);
      ReadoutStep(remaining, k);
      vals := vals + [remaining[k]];
      remaining := remaining - {k};
    }
  }

  lemma ReadoutStep(m: map<real, int>, k: real)
    requires IsMin(m, k)
    ensures Readout(m) == [m[k]] + Readout(m - {k}) && |m - {k}| < |m|
  {
  }

  /** The loop of rescale: an ascending pass that writes each value under its new key. */
  method Rebuild(a: Arithmetic, oldValues: map<real, int>, dur: int) returns (values: map<real, int>)
    ensures values == Rescaled(oldValues, Decaying(a, dur))
  {
    values := map[];
    var remaining := oldValues;
    VisitNone(oldValues, Decaying(a, dur));
    while remaining != map[]
      invariant Unvisited(oldValues, remaining)
      invariant values == Rescaled(oldValues - remaining.Keys, Decaying(a, dur))
      decreases |remaining|
    {
      var k := First(remaining);
      var key := a.decay(k, dur);
      values := values[key := remaining[k]];
      VisitOne(oldValues, remaining, k, Decaying(a, dur));
      remaining := remaining - {k};
    }
    assert oldValues - remaining.Keys == oldValues;
  }

  /** begin() of the sorted map. */
  method First(m: map<real, int>) returns (k: real)
    requires m != map[]
    ensures IsMin(m, k)
  {
    ExtremesExist(m);
    ghost var lo :| IsMin(m, lo);
    assert lo in m.Keys && forall j :: j in m.Keys ==> lo <= j;
    k :| k in m.Keys && forall j :: j in m.Keys ==> k <= j;
  }

  /** What is left of an ascending pass over `all`. */
  ghost predicate Unvisited(all: map<real, int>, remaining: map<real, int>) {
    && remaining.Keys <= all.Keys
    && (forall j :: j in remaining ==> remaining[j] == all[j])
    && (forall i, j :: i in all && i !in remaining && j in remaining ==> i < j)
  }

  lemma VisitNone(all: map<real, int>, f: real -> real)
    ensures Unvisited(all, all) && Rescaled(all - all.Keys, f) == map[]
  {
  }

  lemma VisitOne(all: map<real, int>, remaining: map<real, int>, k: real, f: real -> real)
    requires Unvisited(all, remaining) && IsMin(remaining, k)
    ensures Unvisited(all, remaining - {k}) && |remaining - {k}| < |remaining|
    ensures Rescaled(all - (remaining - {k}).Keys, f) == Rescaled(all - remaining.Keys, f)[f(k) := remaining[k]]
  {
    RemoveShrinks(remaining, k);
    assert all - (remaining - {k}).Keys == (all - remaining.Keys)[k := remaining[k]];
    RescaledSnoc(all - remaining.Keys, f, k, remaining[k]);
  }

  lemma RescaledSnoc(done: map<real, int>, f: real -> real, k: real, v: int)
    requires forall j :: j in done ==> j < k
    ensures Rescaled(done[k := v], f) == Rescaled(done, f)[f(k) := v]
  {
    var m := done[k := v];
    assert k in m;
    assert MaxKey(m) == k;
    assert m - {k} == done;
  }
}

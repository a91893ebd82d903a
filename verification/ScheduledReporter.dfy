/** A report: five separately locked reads of the registry, other threads changing it in between. */
module ScheduledReporter {
  import opened MetricRegistry
  import opened RegistryLog

  /** What a report passes on: the maps in the order they are read. */
  datatype Report = Maps(counters: map<string, Metric>, histograms: map<string, Metric>,
                         meters: map<string, Metric>, timers: map<string, Metric>, gauges: map<string, Metric>)
  {
    function Map(ty: MetricType): map<string, Metric> {
      match ty
      case CounterType => counters
      case HistogramType => histograms
      case MeterType => meters
      case TimerType => timers
      case GaugeType => gauges
    }
  }

  /** How many reads of a report come before the read of this type. */
  function ReadOrder(ty: MetricType): nat {
    match ty
    case CounterType => 0
    case HistogramType => 1
    case MeterType => 2
    case TimerType => 3
    case GaugeType => 4
  }

  class ScheduledReporter {
    const metricRegistry: MetricRegistry

    constructor (registry: MetricRegistry)
      ensures metricRegistry == registry
    {
      metricRegistry := registry;
    }

    /** With nobody interfering the five maps split up the registry. */
    method Report() returns (r: Report)
      requires metricRegistry.Valid()
      ensures forall ty, name ::
        (name in r.Map(ty) <==> name in metricRegistry.contents && metricRegistry.contents[name].ty == ty)
        && (name in r.Map(ty) ==> r.Map(ty)[name] == metricRegistry.contents[name].metric)
    {
      var counters := metricRegistry.GetMetrics(CounterType);
      var histograms := metricRegistry.GetMetrics(HistogramType);
      var meters := metricRegistry.GetMetrics(MeterType);
      var timers := metricRegistry.GetMetrics(TimerType);
      var gauges := metricRegistry.GetMetrics(GaugeType);
      r := Maps(counters, histograms, meters, timers, gauges);
    }
  }

  // ---------- Reports under interference ----------

  /** The registry after each of the operations, which all threads perform one at a time under the write lock. */
  function After(ops: seq<Op>, i: nat): Contents
    requires i <= |ops|
  {
    Run(EMPTY, ops[..i]).contents
  }

  /** r was read during the history `ops`: the read of each type came after `at[ReadOrder(ty)]` operations. */
  ghost predicate ReadDuring(r: Report, ops: seq<Op>, at: seq<nat>) {
    && |at| == 5 && at[0] <= at[1] <= at[2] <= at[3] <= at[4] <= |ops|
    && forall ty :: r.Map(ty) == OfType(After(ops, at[ReadOrder(ty)]), ty)
  }

  /** Read back from the meaning of ReadDuring: a report lists only entries live at some instant during it. */
  lemma ListedWasLive(r: Report, ops: seq<Op>, at: seq<nat>, ty: MetricType, name: string)
    requires ReadDuring(r, ops, at) && name in r.Map(ty)
    ensures exists i :: at[0] <= i <= at[4] && name in After(ops, i)
                     && After(ops, i)[name] == Entry(ty, r.Map(ty)[name])
  {
  }

  lemma SplitHistory(ops: seq<Op>, i: nat, j: nat)
    requires i <= j <= |ops|
    ensures Run(EMPTY, ops[..j]) == Run(Run(EMPTY, ops[..i]), ops[i..j])
  {
    RunSplit(EMPTY, ops[..j], i);
    assert ops[..j][..i] == ops[..i] && ops[..j][i..] == ops[i..j];
  }

  /** The calls that other threads make between the start of a report and its read of this type. */
  function Before(ops: seq<Op>, at: seq<nat>, ty: MetricType): seq<Op>
    requires |at| == 5 && at[0] <= at[ReadOrder(ty)] <= |ops|
  {
    ops[at[0]..at[ReadOrder(ty)]]
  }

  lemma ReadOf(r: Report, ops: seq<Op>, at: seq<nat>, ty: MetricType)
    requires ReadDuring(r, ops, at)
    ensures at[0] <= at[ReadOrder(ty)] <= at[4]
    ensures r.Map(ty) == OfType(After(ops, at[ReadOrder(ty)]), ty)
    ensures Run(EMPTY, ops[..at[ReadOrder(ty)]]) == Run(Run(EMPTY, ops[..at[0]]), Before(ops, at, ty))
  {
    SplitHistory(ops, at[0], at[ReadOrder(ty)]);
  }

  /**
   * Under which types a name bound at the start is listed: under its own unless it was removed before that read,
   * and under any type it was registered again with before the read of that type.
   */
  lemma ListedIff(r: Report, ops: seq<Op>, at: seq<nat>, ty: MetricType, name: string)
    requires ReadDuring(r, ops, at) && name in After(ops, at[0])
    ensures at[0] <= at[ReadOrder(ty)]
    ensures name in r.Map(ty)
       <==> ((Remove(name) !in Before(ops, at, ty) && After(ops, at[0])[name].ty == ty)
             || Rebound(Before(ops, at, ty), name, ty))
  {
    ReadOf(r, ops, at, ty);
    BoundAsIff(Run(EMPTY, ops[..at[0]]), Before(ops, at, ty), name, ty);
    hide Run, Rebound;
  }

  /**
   * A name bound at the start is listed with its object exactly if it was not removed before the read of its type,
   * or, being a gauge, was registered again as the same gauge. Later removals do no harm.
   */
  lemma ListedUnchangedIff(r: Report, ops: seq<Op>, at: seq<nat>, name: string)
    requires ReadDuring(r, ops, at) && name in After(ops, at[0])
    ensures var e := After(ops, at[0])[name];
      at[0] <= at[ReadOrder(e.ty)]
      && ((name in r.Map(e.ty) && r.Map(e.ty)[name] == e.metric)
          <==> Remove(name) !in Before(ops, at, e.ty) || SameGaugeAgain(Before(ops, at, e.ty), name, e))
  {
    var e := After(ops, at[0])[name];
    ReadOf(r, ops, at, e.ty);
    RunSound(ops[..at[0]]);
    BoundAsBeforeIff(Run(EMPTY, ops[..at[0]]), Before(ops, at, e.ty), name);
    hide Run, SameGaugeAgain, Sound;
  }

  /** A metric the registry built is listed with its object exactly if not removed before the read of its type. */
  lemma BuiltListedIff(r: Report, ops: seq<Op>, at: seq<nat>, name: string)
    requires ReadDuring(r, ops, at) && name in After(ops, at[0]) && After(ops, at[0])[name].metric.Built?
    ensures var e := After(ops, at[0])[name];
      at[0] <= at[ReadOrder(e.ty)]
      && ((name in r.Map(e.ty) && r.Map(e.ty)[name] == e.metric) <==> Remove(name) !in Before(ops, at, e.ty))
  {
    ListedUnchangedIff(r, ops, at, name);
  }

  /** When a name bound at the start is in exactly the map of its type, with its object, and in no other. */
  lemma ListedOnceIff(r: Report, ops: seq<Op>, at: seq<nat>, name: string)
    requires ReadDuring(r, ops, at) && name in After(ops, at[0])
    ensures forall ty :: at[0] <= at[ReadOrder(ty)]
    ensures var e := After(ops, at[0])[name];
      (forall ty :: (name in r.Map(ty) <==> ty == e.ty) && (ty == e.ty ==> r.Map(ty)[name] == e.metric))
      <==> (Remove(name) !in Before(ops, at, e.ty) || SameGaugeAgain(Before(ops, at, e.ty), name, e))
           && forall ty :: ty != e.ty ==> !Rebound(Before(ops, at, ty), name, ty)
  {
    var e := After(ops, at[0])[name];
    ListedUnchangedIff(r, ops, at, name);
    forall ty
      ensures at[0] <= at[ReadOrder(ty)]
      ensures ty != e.ty ==> (name in r.Map(ty) <==> Rebound(Before(ops, at, ty), name, ty))
    {
      ListedIff(r, ops, at, ty, name);
    }
    hide After, SameGaugeAgain, Rebound;
  }

  lemma GoneAfter(ops: seq<Op>, i: nat, name: string)
    requires i < |ops| && ops[i] == Remove(name)
    ensures name !in After(ops, i + 1)
  {
    assert ops[..i + 1][..i] == ops[..i];
  }

  /** A name bound at every instant of a report is in exactly the map of its type. */
  lemma BoundThroughoutIsListed(r: Report, ops: seq<Op>, at: seq<nat>, name: string)
    requires ReadDuring(r, ops, at) && forall i :: at[0] <= i <= at[4] ==> name in After(ops, i)
    ensures var e := After(ops, at[0])[name];
      forall ty :: (name in r.Map(ty) <==> ty == e.ty) && (ty == e.ty ==> r.Map(ty)[name] == e.metric)
  {
    if Remove(name) in ops[at[0]..at[4]] {
      var i :| at[0] <= i < at[4] && ops[i] == Remove(name);
      GoneAfter(ops, i, name);
      assert false;
    }
    UntouchedListedOnce(r, ops, at, name);
  }

  /** A name bound when the report starts, and not removed before it ends, is in exactly the map of its type. */
  lemma UntouchedListedOnce(r: Report, ops: seq<Op>, at: seq<nat>, name: string)
    requires ReadDuring(r, ops, at)
    requires name in After(ops, at[0]) && Remove(name) !in ops[at[0]..at[4]]
    ensures var e := After(ops, at[0])[name];
      forall ty :: (name in r.Map(ty) <==> ty == e.ty) && (ty == e.ty ==> r.Map(ty)[name] == e.metric)
  {
    var e := After(ops, at[0])[name];
    forall ty
      ensures (name in r.Map(ty) <==> ty == e.ty) && (ty == e.ty ==> r.Map(ty)[name] == e.metric)
    {
      StillBound(ops, at[0], at[ReadOrder(ty)], at[4], name);
      assert r.Map(ty) == OfType(After(ops, at[ReadOrder(ty)]), ty);
    }
  }

  lemma StillBound(ops: seq<Op>, i: nat, j: nat, k: nat, name: string)
    requires i <= j <= k <= |ops| && name in After(ops, i) && Remove(name) !in ops[i..k]
    ensures name in After(ops, j) && After(ops, j)[name] == After(ops, i)[name]
  {
    SplitHistory(ops, i, j);
    assert ops[i..j] == ops[i..k][..j - i];
    BoundUntilRemoved(Run(EMPTY, ops[..i]), ops[i..j], name);
  }

  /** Read back from the meaning of ReadDuring: a name never bound during the report is in none of its maps. */
  lemma AbsentNotListed(r: Report, ops: seq<Op>, at: seq<nat>, name: string)
    requires ReadDuring(r, ops, at)
    requires forall i :: at[0] <= i <= at[4] ==> name !in After(ops, i)
    ensures forall ty :: name !in r.Map(ty)
  {
  }

  /** A name listed under one type is listed under a later one too exactly if it was registered again in between. */
  lemma ListedTwiceIff(r: Report, ops: seq<Op>, at: seq<nat>, a: MetricType, b: MetricType, name: string)
    requires ReadDuring(r, ops, at) && ReadOrder(a) < ReadOrder(b) && name in r.Map(a)
    ensures at[ReadOrder(a)] <= at[ReadOrder(b)] <= |ops|
    ensures name in r.Map(b) <==> Rebound(ops[at[ReadOrder(a)]..at[ReadOrder(b)]], name, b)
  {
    var i, j := at[ReadOrder(a)], at[ReadOrder(b)];
    assert r.Map(a) == OfType(After(ops, i), a) && r.Map(b) == OfType(After(ops, j), b);
    SplitHistory(ops, i, j);
    BoundAsIff(Run(EMPTY, ops[..i]), ops[i..j], name, b);
    hide Run, Rebound;
  }

  /** A name listed under two types was removed between the two reads. */
  lemma ListedTwiceWasRemoved(r: Report, ops: seq<Op>, at: seq<nat>, a: MetricType, b: MetricType, name: string)
    requires ReadDuring(r, ops, at) && ReadOrder(a) < ReadOrder(b)
    requires name in r.Map(a) && name in r.Map(b)
    ensures at[ReadOrder(a)] <= at[ReadOrder(b)] <= |ops|
    ensures Remove(name) in ops[at[ReadOrder(a)]..at[ReadOrder(b)]]
  {
    var i, j := at[ReadOrder(a)], at[ReadOrder(b)];
    assert r.Map(a) == OfType(After(ops, i), a) && r.Map(b) == OfType(After(ops, j), b);
    if Remove(name) !in ops[i..j] {
      StillBound(ops, i, j, j, name);
      assert false;
    }
  }

  /** Built with one type, removed, built again with another. */
  function Retyped(name: string, a: MetricType, b: MetricType): seq<Op> {
    [GetOrAdd(a, name), Remove(name), GetOrAdd(b, name)]
  }

  lemma RetypedContents(name: string, a: MetricType, b: MetricType)
    requires a != GaugeType && b != GaugeType
    ensures |Retyped(name, a, b)| == 3
    ensures After(Retyped(name, a, b), 1) == map[name := Entry(a, Built(a, 0))]
    ensures After(Retyped(name, a, b), 3) == map[name := Entry(b, Built(b, 1))]
  {
    var ops := Retyped(name, a, b);
    assert ops[..1] == [ops[0]] && ops[..3] == [ops[0], ops[1], ops[2]];
    RunThree(ops[0], ops[1], ops[2]);
  }

  /** There is a report for any five instants in order. */
  lemma ReportAt(ops: seq<Op>, at: seq<nat>) returns (r: Report)
    requires |at| == 5 && at[0] <= at[1] <= at[2] <= at[3] <= at[4] <= |ops|
    ensures ReadDuring(r, ops, at)
    ensures forall ty :: at[ReadOrder(ty)] <= |ops| && r.Map(ty) == OfType(After(ops, at[ReadOrder(ty)]), ty)
    ensures r.counters == OfType(After(ops, at[0]), CounterType)
    ensures r.histograms == OfType(After(ops, at[1]), HistogramType)
    ensures r.meters == OfType(After(ops, at[2]), MeterType) && r.timers == OfType(After(ops, at[3]), TimerType)
    ensures r.gauges == OfType(After(ops, at[4]), GaugeType)
  {
    hide After, OfType;
    r := Maps(OfType(After(ops, at[0]), CounterType), OfType(After(ops, at[1]), HistogramType),
              OfType(After(ops, at[2]), MeterType), OfType(After(ops, at[3]), TimerType),
              OfType(After(ops, at[4]), GaugeType));
  }

  /** Being bound at each of the five reads is not enough: a timer turned counter after the counters were read. */
  lemma RetypedNameCanBeMissed(name: string) returns (r: Report, ops: seq<Op>, at: seq<nat>)
    ensures ReadDuring(r, ops, at)
    ensures forall k :: 0 <= k < 5 ==> name in After(ops, at[k])
    ensures forall ty :: name !in r.Map(ty)
  {
    hide Run, Apply, After, Retyped;
    ops, at := Retyped(name, TimerType, CounterType), [1, 3, 3, 3, 3];
    RetypedContents(name, TimerType, CounterType);
    r := ReportAt(ops, at);
  }

  /** A counter turned timer after the counters were read is listed twice, as two objects. */
  lemma RetypedNameCanBeListedTwice(name: string) returns (r: Report, ops: seq<Op>, at: seq<nat>)
    ensures ReadDuring(r, ops, at)
    ensures name in r.counters && name in r.timers && r.counters[name] != r.timers[name]
  {
    hide Run, Apply, After, Retyped;
    ops, at := Retyped(name, CounterType, TimerType), [1, 3, 3, 3, 3];
    RetypedContents(name, CounterType, TimerType);
    r := ReportAt(ops, at);
    assert r.counters == r.Map(CounterType) && r.timers == r.Map(TimerType);
  }

  lemma RunSnoc(ops: seq<Op>, op: Op)
    ensures Run(EMPTY, ops + [op]) == Apply(Run(EMPTY, ops), op)
  {
  }

  lemma RunThree(a: Op, b: Op, c: Op)
    ensures Run(EMPTY, [a]) == Apply(EMPTY, a)
    ensures Run(EMPTY, [a, b, c]) == Apply(Apply(Apply(EMPTY, a), b), c)
  {
    RunSnoc([], a);
    RunSnoc([a], b);
    RunSnoc([a, b], c);
    assert [a] + [b] == [a, b] && [a, b] + [c] == [a, b, c] && [] + [a] == [a];
  }
}

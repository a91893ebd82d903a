/** The metric registry: five typed maps and a set of names behaving as one map. */
module MetricRegistry {
  import opened Results

  datatype MetricType = GaugeType | CounterType | HistogramType | MeterType | TimerType

  const TOTAL_TYPES: nat := 5

  /** The position of a type in the array of metric sets. */
  function Index(ty: MetricType): (i: nat)
    ensures i < TOTAL_TYPES
  {
    match ty
    case GaugeType => 0
    case CounterType => 1
    case HistogramType => 2
    case MeterType => 3
    case TimerType => 4
  }

  /** A metric object: a gauge brought by the caller, or the `serial`-th object the registry built. */
  datatype Metric = UserGauge(id: nat) | Built(ty: MetricType, serial: nat)

  // ---------- One map ----------

  datatype Entry = Entry(ty: MetricType, metric: Metric)

  type Contents = map<string, Entry>

  datatype Op = GetOrAdd(ty: MetricType, name: string) | AddGauge(name: string, gauge: nat) | Remove(name: string)

  /** The registry as one map, with the number of objects built so far. */
  datatype Registry = Registry(contents: Contents, serial: nat)

  const EMPTY := Registry(map[], 0)

  function Apply(r: Registry, op: Op): Registry {
    match op
    case GetOrAdd(ty, name) =>
      if ty == GaugeType || (name in r.contents && r.contents[name].ty == ty) then r
      else if name in r.contents then r.(serial := r.serial + 1)
      else Registry(r.contents[name := Entry(ty, Built(ty, r.serial))], r.serial + 1)
    case AddGauge(name, gauge) =>
      if name in r.contents then r
      else r.(contents := r.contents[name := Entry(GaugeType, UserGauge(gauge))])
    case Remove(name) => r.(contents := r.contents - {name})
  }

  /** The metrics of one type, as getMetrics copies them out. */
  function OfType(c: Contents, ty: MetricType): map<string, Metric> {
    map n | n in c && c[n].ty == ty :: c[n].metric
  }

  // ---------- The class ----------

  /** The five sets and the names represent `contents`. */
  ghost predicate Represents(sets: seq<map<string, Metric>>, names: set<string>, contents: Contents) {
    && |sets| == TOTAL_TYPES
    && names == contents.Keys
    && forall i, n :: 0 <= i < TOTAL_TYPES ==>
         (n in sets[i] <==> n in contents && Index(contents[n].ty) == i)
         && (n in sets[i] ==> sets[i][n] == contents[n].metric)
  }

  class MetricRegistry {
    const metricSets: array<map<string, Metric>>
    var metricNames: set<string>
    var serial: nat
    ghost var contents: Contents

    ghost predicate Valid()
      reads this, metricSets
    {
      Represents(metricSets[..], metricNames, contents)
    }

    ghost function Value(): Registry
      reads this
    {
      Registry(contents, serial)
    }

    constructor ()
      ensures Valid() && fresh(metricSets) && Value() == EMPTY && contents == map[]
    {
      metricSets := new map<string, Metric>[TOTAL_TYPES](_ => map[]);
      metricNames, serial, contents := {}, 0, map[];
    }

    /** The number of names bound. */
    function Count(): (n: nat)
      requires Valid()
      reads this, metricSets
      ensures n == |contents|
    {
      |metricNames|
    }

    method BuildMetric(ty: MetricType) returns (r: Result<Metric>)
      modifies this`serial
      ensures ty == GaugeType ==> r == InvalidArgument && serial == old(serial)
      ensures ty != GaugeType ==> r == Success(Built(ty, old(serial))) && serial == old(serial) + 1
    {
      if ty == GaugeType {
        return InvalidArgument;
      }
      r := Success(Built(ty, serial));
      serial := serial + 1;
    }

    method AddMetric(ty: MetricType, name: string, metric: Metric) returns (r: Result<bool>)
      requires Valid()
      modifies this`metricNames, this`contents, metricSets
      ensures Valid()
      ensures name in old(contents) ==> r == InvalidArgument && contents == old(contents)
      ensures name !in old(contents) ==> r == Success(true) && contents == old(contents)[name := Entry(ty, metric)]
    {
      if name !in metricNames {
        metricNames := metricNames + {name};
        var inserted := name !in metricSets[Index(ty)];
        if inserted {
          metricSets[Index(ty)] := metricSets[Index(ty)][name := metric];
        }
        contents := contents[name := Entry(ty, metric)];
        return Success(inserted);
      }
      return InvalidArgument;
    }

    method GetOrAdd(ty: MetricType, name: string) returns (r: Result<Metric>)
      requires Valid()
      modifies this, metricSets
      ensures Valid() && Value() == Apply(old(Value()), Op.GetOrAdd(ty, name))
      ensures r.Success? <==> name in contents && contents[name].ty == ty
      ensures r.Success? ==> r.value == contents[name].metric
      ensures r.InvalidArgument? ==> contents == old(contents)
    {
      var set_ := metricSets[Index(ty)];
      if name in set_ {
        return Success(set_[name]);
      }
      var built := BuildMetric(ty);
      if built.InvalidArgument? {
        return InvalidArgument;
      }
      var added := AddMetric(ty, name, built.value);
      if added.InvalidArgument? {
        return InvalidArgument;
      }
      return built;
    }

    method AddGauge(name: string, gauge: nat) returns (r: Result<bool>)
      requires Valid()
      modifies this, metricSets
      ensures Valid() && Value() == Apply(old(Value()), Op.AddGauge(name, gauge))
      ensures r == if name in old(contents) then InvalidArgument else Success(true)
    {
      r := AddMetric(GaugeType, name, UserGauge(gauge));
    }

    method RemoveMetric(name: string) returns (removed: bool)
      requires Valid()
      modifies this, metricSets
      ensures Valid() && Value() == Apply(old(Value()), Op.Remove(name))
      ensures removed <==> name in old(contents)
    {
      if name in metricNames {
        for i := 0 to TOTAL_TYPES
          invariant metricNames == old(metricNames) && contents == old(contents) && serial == old(serial)
          invariant metricSets[..] == old(metricSets[..])
          invariant forall j :: 0 <= j < i ==> name !in metricSets[j]
        {
          if name in metricSets[i] {
            metricSets[i] := metricSets[i] - {name};
            break;
          }
        }
        metricNames := metricNames - {name};
        contents := contents - {name};
        return true;
      }
      assert contents - {name} == contents;
      return false;
    }

    method GetMetrics(ty: MetricType) returns (copy: map<string, Metric>)
      requires Valid()
      ensures copy == OfType(contents, ty)
    {
      copy := map[];
      var metricSet := metricSets[Index(ty)];
      var remaining := metricSet.Keys;
      while remaining != {}
        invariant remaining <= metricSet.Keys
        invariant copy.Keys == metricSet.Keys - remaining
        invariant forall n :: n in copy ==> copy[n] == metricSet[n]
        decreases remaining
      {
        var n :| n in remaining;
        copy := copy[n := metricSet[n]];
        remaining := remaining - {n};
      }
    }
  }

  /** The names are the disjoint union of the five key sets. */
  lemma NamesAreDisjointUnion(r: MetricRegistry)
    requires r.Valid()
    ensures r.metricSets.Length == TOTAL_TYPES
    ensures r.metricNames == r.metricSets[0].Keys + r.metricSets[1].Keys + r.metricSets[2].Keys
                             + r.metricSets[3].Keys + r.metricSets[4].Keys
    ensures forall i, j :: 0 <= i < j < TOTAL_TYPES ==> r.metricSets[i].Keys !! r.metricSets[j].Keys
  {
  }

  // ---------- Whole runs ----------

  function Run(r: Registry, ops: seq<Op>): Registry {
    if ops == [] then r else Apply(Run(r, ops[..|ops| - 1]), ops[|ops| - 1])
  }

  /**
   * Gauges are filed as gauges. Built metrics are of the type they are filed under, were built before now, and are
   * filed under one name only.
   */
  ghost predicate Sound(r: Registry) {
    && (forall n :: n in r.contents && r.contents[n].metric.UserGauge? ==> r.contents[n].ty == GaugeType)
    && (forall n :: n in r.contents && r.contents[n].metric.Built? ==>
          r.contents[n].metric.ty == r.contents[n].ty && r.contents[n].metric.serial < r.serial)
    && (forall n, m ::
          (n in r.contents && m in r.contents && r.contents[n].metric.Built?
            && r.contents[n].metric == r.contents[m].metric) ==> n == m)
  }

  lemma {:induction false} RunSound(ops: seq<Op>)
    ensures Sound(Run(EMPTY, ops))
  {
    if ops != [] {
      RunSound(ops[..|ops| - 1]);
    }
  }

  /** Until it is removed, a name keeps its one object. */
  lemma {:induction false} BoundUntilRemoved(r: Registry, ops: seq<Op>, name: string)
    requires name in r.contents && Remove(name) !in ops
    ensures name in Run(r, ops).contents && Run(r, ops).contents[name] == r.contents[name]
  {
    if ops != [] {
      BoundUntilRemoved(r, ops[..|ops| - 1], name);
      assert ops[|ops| - 1] in ops;
    }
  }

  lemma {:induction false} SerialGrows(r: Registry, ops: seq<Op>)
    ensures r.serial <= Run(r, ops).serial
  {
    if ops != [] {
      SerialGrows(r, ops[..|ops| - 1]);
    }
  }

  /** Every built object found later is either already there under the same name, or was built in between. */
  lemma {:induction false} ObjectsAreOldOrNew(r: Registry, ops: seq<Op>, name: string)
    requires name in Run(r, ops).contents && Run(r, ops).contents[name].metric.Built?
    ensures (name in r.contents && r.contents[name] == Run(r, ops).contents[name])
         || r.serial <= Run(r, ops).contents[name].metric.serial
  {
    if ops != [] {
      var init := ops[..|ops| - 1];
      SerialGrows(r, init);
      if name in Run(r, init).contents && Run(r, init).contents[name].metric.Built? {
        ObjectsAreOldOrNew(r, init, name);
      }
    }
  }

  /** After a removal, a metric built again under the same name is a new object; a gauge may be the same again. */
  lemma NewObjectAfterRemoval(before: seq<Op>, between: seq<Op>, name: string)
    requires var r := Run(EMPTY, before);
      name in r.contents && r.contents[name].metric.Built?
    requires var r' := Run(Apply(Run(EMPTY, before), Remove(name)), between);
      name in r'.contents && r'.contents[name].metric.Built?
    ensures Run(EMPTY, before).contents[name].metric
         != Run(Apply(Run(EMPTY, before), Remove(name)), between).contents[name].metric
  {
    RunSound(before);
    ObjectsAreOldOrNew(Apply(Run(EMPTY, before), Remove(name)), between, name);
  }
}

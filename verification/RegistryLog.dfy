/** What the calls made on a registry say about a name, without replaying them. */
module RegistryLog {
  import opened MetricRegistry

  /** The call registers the name under this type, if the name is free. */
  predicate Registers(op: Op, name: string, ty: MetricType) {
    match op
    case GetOrAdd(t, n) => n == name && t == ty != GaugeType
    case AddGauge(n, _) => n == name && ty == GaugeType
    case Remove(_) => false
  }

  predicate RegistersSome(op: Op, name: string) {
    exists ty :: Registers(op, name, ty)
  }

  /** The calls before `k` remove the name, and none of them registers it after that. */
  predicate FreeAt(ops: seq<Op>, k: nat, name: string)
    requires k <= |ops|
  {
    exists i :: 0 <= i < k && ops[i] == Remove(name) && forall x :: i < x < k ==> !RegistersSome(ops[x], name)
  }

  /** Call k is the first registration of the name since a removal, under this type, and no removal follows. */
  predicate RegisteredAt(ops: seq<Op>, k: nat, name: string, ty: MetricType) {
    k < |ops| && Registers(ops[k], name, ty) && FreeAt(ops, k, name) && Remove(name) !in ops[k..]
  }

  /** After the calls the name is bound, by one of them, under this type. */
  predicate Rebound(ops: seq<Op>, name: string, ty: MetricType) {
    exists k :: 0 <= k < |ops| && RegisteredAt(ops, k, name, ty)
  }

  /** The entry a registering call makes, given the number of objects built before it. */
  function EntryOf(op: Op, serial: nat): Entry
    requires !op.Remove?
  {
    match op
    case GetOrAdd(ty, _) => Entry(ty, Built(ty, serial))
    case AddGauge(_, gauge) => Entry(GaugeType, UserGauge(gauge))
  }

  /** Some call binds the name again to this very gauge. */
  predicate SameGaugeAgain(ops: seq<Op>, name: string, e: Entry) {
    e.metric.UserGauge? &&
    exists k :: 0 <= k < |ops| && RegisteredAt(ops, k, name, GaugeType) && ops[k] == AddGauge(name, e.metric.id)
  }

  lemma RunSplit(r: Registry, ops: seq<Op>, i: nat)
    requires i <= |ops|
    ensures Run(r, ops) == Run(Run(r, ops[..i]), ops[i..])
    decreases |ops|
  {
    if i < |ops| {
      var init := ops[..|ops| - 1];
      RunSplit(r, init, i);
      assert init[..i] == ops[..i] && ops[i..][..|ops[i..]| - 1] == init[i..];
    } else {
      assert ops[..i] == ops && ops[i..] == [];
    }
  }

  lemma {:induction false} StaysFree(r: Registry, ops: seq<Op>, name: string)
    requires name !in r.contents && forall x :: 0 <= x < |ops| ==> !RegistersSome(ops[x], name)
    ensures name !in Run(r, ops).contents
  {
    if ops != [] {
      var last := ops[|ops| - 1];
      StaysFree(r, ops[..|ops| - 1], name);
      match last
      case GetOrAdd(t, n) => assert t == GaugeType || n != name || Registers(last, name, t);
      case AddGauge(n, _) => assert n != name || Registers(last, name, GaugeType);
      case Remove(_) =>
    }
  }

  lemma FreeMeansFree(r: Registry, ops: seq<Op>, name: string)
    requires FreeAt(ops, |ops|, name)
    ensures name !in Run(r, ops).contents
  {
    var i :| 0 <= i < |ops| && ops[i] == Remove(name) && forall x :: i < x < |ops| ==> !RegistersSome(ops[x], name);
    RunSplit(r, ops, i + 1);
    assert ops[..i + 1][..i] == ops[..i];
    StaysFree(Run(r, ops[..i + 1]), ops[i + 1..], name);
  }

  lemma FreeAtPrefix(ops: seq<Op>, k: nat, name: string)
    requires k <= |ops|
    ensures FreeAt(ops[..k], k, name) <==> FreeAt(ops, k, name)
  {
    assert forall x :: 0 <= x < k ==> ops[..k][x] == ops[x];
  }

  /** A name bound at first and free in the end was removed, and not registered since. */
  lemma {:induction false} FreeWasRemoved(r: Registry, ops: seq<Op>, name: string)
    requires name in r.contents && name !in Run(r, ops).contents
    ensures FreeAt(ops, |ops|, name)
  {
    var n := |ops| - 1;
    if ops[n] != Remove(name) {
      FreeWasRemoved(r, ops[..n], name);
      FreeAtPrefix(ops, n, name);
      assert !RegistersSome(ops[n], name);
      var i :| 0 <= i < n && ops[i] == Remove(name) && forall x :: i < x < n ==> !RegistersSome(ops[x], name);
      assert forall x :: i < x < |ops| ==> !RegistersSome(ops[x], name);
    }
  }

  /** The registration that RegisteredAt singles out is the one in force. */
  lemma RegisteredIsBound(r: Registry, ops: seq<Op>, k: nat, name: string, ty: MetricType)
    requires RegisteredAt(ops, k, name, ty)
    ensures name in Run(r, ops).contents
    ensures Run(r, ops).contents[name] == EntryOf(ops[k], Run(r, ops[..k]).serial)
    ensures Run(r, ops).contents[name].ty == ty
  {
    FreeAtPrefix(ops, k, name);
    FreeMeansFree(r, ops[..k], name);
    RunSplit(r, ops, k + 1);
    assert ops[..k + 1][..k] == ops[..k];
    assert ops[k..] == [ops[k]] + ops[k + 1..];
    BoundUntilRemoved(Run(r, ops[..k + 1]), ops[k + 1..], name);
  }

  lemma OneCall(r: Registry, op: Op, name: string)
    ensures name in r.contents ==>
      (name in Apply(r, op).contents <==> op != Remove(name))
      && (name in Apply(r, op).contents ==> Apply(r, op).contents[name] == r.contents[name])
    ensures name !in r.contents && name in Apply(r, op).contents ==> Registers(op, name, Apply(r, op).contents[name].ty)
  {
  }

  /** Whatever binds the name in the end: its binding at the start, never removed, or a registration since. */
  lemma {:induction false} BindingHasOrigin(r: Registry, ops: seq<Op>, name: string)
    requires name in r.contents && name in Run(r, ops).contents
    ensures (Remove(name) !in ops && Run(r, ops).contents[name] == r.contents[name])
         || Rebound(ops, name, Run(r, ops).contents[name].ty)
  {
    if ops != [] {
      var n := |ops| - 1;
      var init := ops[..n];
      OneCall(Run(r, init), ops[n], name);
      hide Apply, Registers, FreeAt;
      var ty := Run(r, ops).contents[name].ty;
      if name in Run(r, init).contents {
        BindingHasOrigin(r, init, name);
        if Remove(name) in init {
          var k :| 0 <= k < n && RegisteredAt(init, k, name, ty);
          RegisteredLater(init, ops[n], k, name, ty);
          assert ops == init + [ops[n]];
          assert RegisteredAt(ops, k, name, ty);
        }
      } else {
        FreeWasRemoved(r, init, name);
        FreeAtPrefix(ops, n, name);
        assert RegisteredAt(ops, n, name, ty);
      }
    }
  }

  lemma RegisteredLater(ops: seq<Op>, op: Op, k: nat, name: string, ty: MetricType)
    requires RegisteredAt(ops, k, name, ty) && op != Remove(name)
    ensures RegisteredAt(ops + [op], k, name, ty)
  {
    assert (ops + [op])[..k] == ops[..k];
    FreeAtPrefix(ops, k, name);
    FreeAtPrefix(ops + [op], k, name);
    assert (ops + [op])[k..] == ops[k..] + [op];
  }

  /** From a bound name, the calls decide whether it is bound in the end, and under which type. */
  lemma BoundAsIff(r: Registry, ops: seq<Op>, name: string, ty: MetricType)
    requires name in r.contents
    ensures (name in Run(r, ops).contents && Run(r, ops).contents[name].ty == ty)
       <==> (Remove(name) !in ops && r.contents[name].ty == ty) || Rebound(ops, name, ty)
  {
    if name in Run(r, ops).contents {
      BindingHasOrigin(r, ops, name);
    }
    if Remove(name) !in ops {
      BoundUntilRemoved(r, ops, name);
    }
    if Rebound(ops, name, ty) {
      var k :| 0 <= k < |ops| && RegisteredAt(ops, k, name, ty);
      RegisteredIsBound(r, ops, k, name, ty);
    }
  }

  /** A name is bound as before exactly if it was not removed, or the same gauge was registered again. */
  lemma BoundAsBeforeIff(r: Registry, ops: seq<Op>, name: string)
    requires Sound(r) && name in r.contents
    ensures (name in Run(r, ops).contents && Run(r, ops).contents[name] == r.contents[name])
       <==> Remove(name) !in ops || SameGaugeAgain(ops, name, r.contents[name])
  {
    var e := r.contents[name];
    if Remove(name) !in ops {
      BoundUntilRemoved(r, ops, name);
    } else if name in Run(r, ops).contents {
      BindingHasOrigin(r, ops, name);
      var k :| 0 <= k < |ops| && RegisteredAt(ops, k, name, Run(r, ops).contents[name].ty);
      RegisteredIsBound(r, ops, k, name, Run(r, ops).contents[name].ty);
      SerialGrows(r, ops[..k]);
    }
    if SameGaugeAgain(ops, name, e) {
      var k :| 0 <= k < |ops| && RegisteredAt(ops, k, name, GaugeType) && ops[k] == AddGauge(name, e.metric.id);
      RegisteredIsBound(r, ops, k, name, GaugeType);
    }
  }
}

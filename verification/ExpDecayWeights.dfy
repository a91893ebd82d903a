/** What an exponentially decaying reservoir holds: the items of largest weight, wherever the landmark moved. */
module ExpDecayWeights {
  import opened Algebra
  import opened Exponential
  import opened ExpDecaySample
  import opened Sets

  // ---------- Exact arithmetic ----------

  function Ratio(x: real, u: real): real {
    if u == 0.0 then 0.0 else x / u
  }

  /** exp(alpha*n) for whole seconds n. */
  function Growth(E: real -> real, alpha: real, n: int): real {
    E(alpha * n as real)
  }

  function ExactPriority(E: real -> real, alpha: real): (int, real) -> real {
    (dur, u) => Ratio(Growth(E, alpha, dur), u)
  }

  function ExactDecay(E: real -> real, alpha: real): (real, int) -> real {
    (key, dur) => Product(key, Growth(E, alpha, -dur))
  }

  /** The code's arithmetic with E for exp and no rounding. */
  function ExactArithmetic(E: real -> real, alpha: real): Arithmetic {
    Arithmetic(ExactPriority(E, alpha), ExactDecay(E, alpha))
  }

  /** The priority is exp(alpha*dur) divided by the draw, and a rescale multiplies by exp(-alpha*dur). */
  lemma ArithmeticMeaning(E: real -> real, alpha: real, dur: int, u: real, key: real)
    requires u > 0.0
    ensures ExactArithmetic(E, alpha).priority(dur, u) * u == E(alpha * dur as real)
    ensures ExactArithmetic(E, alpha).decay(key, dur) == key * E(-(alpha * dur as real))
  {
    var x, y := alpha * dur as real, alpha * (-dur) as real;
    assert Growth(E, alpha, dur) == E(x) && Growth(E, alpha, -dur) == E(y);
    Negated(alpha, dur as real, (-dur) as real);
    assert y == -x;
    DivideBack(E(x), u);
    assert ExactArithmetic(E, alpha).priority(dur, u) == Ratio(E(x), u);
    assert ExactArithmetic(E, alpha).decay(key, dur) == Product(key, E(-x));
  }

  lemma Negated(a: real, b: real, c: real)
    requires c == -b
    ensures a * c == -(a * b)
  {
  }

  lemma GrowthIs(E: real -> real, alpha: real, n: int)
    ensures Growth(E, alpha, n) == E(alpha * n as real)
  {
  }

  lemma DivideBack(x: real, u: real)
    requires u > 0.0
    ensures Ratio(x, u) * u == x
  {
  }

  lemma GrowthAdds(E: real -> real, alpha: real, m: int, n: int)
    requires IsExp(E)
    ensures Growth(E, alpha, m + n) == Product(Growth(E, alpha, m), Growth(E, alpha, n))
    ensures Growth(E, alpha, m) > 0.0
  {
    var a, b, c := alpha * m as real, alpha * n as real, alpha * (m + n) as real;
    assert c == a + b;
    assert Adds(E, a, b);
  }

  lemma RatioScales(x: real, y: real, u: real)
    requires u > 0.0
    ensures Ratio(Product(x, y), u) == Product(Ratio(x, u), y)
  {
  }

  // ---------- The landmark, from the timestamps alone ----------

  function Last(items: seq<Item>): Item
    requires items != []
  {
    items[|items| - 1]
  }

  function Init(items: seq<Item>): seq<Item>
    requires items != []
  {
    items[..|items| - 1]
  }

  /** start_time_ after the items. */
  function Landmark(origin: int, items: seq<Item>): int {
    if items == [] then origin
    else
      var l := Landmark(origin, Init(items));
      if l + RESCALE_THRESHOLD < Last(items).timestamp then Last(items).timestamp else l
  }

  /** Whole seconds by which the rescales have moved the keys, each gap truncated. */
  function Shift(origin: int, items: seq<Item>): int {
    if items == [] then 0
    else Shift(origin, Init(items)) + Seconds(Landmark(origin, items) - Landmark(origin, Init(items)))
  }

  function Rescales(origin: int, items: seq<Item>): nat {
    if items == [] then 0
    else
      Rescales(origin, Init(items)) + if Landmark(origin, items) == Landmark(origin, Init(items)) then 0 else 1
  }

  /** The landmark-free age of item i, in whole seconds: its age when inserted plus the shifts up to then. */
  function Effective(origin: int, items: seq<Item>, i: nat): int
    requires i < |items|
  {
    Seconds(items[i].timestamp - Landmark(origin, items[..i + 1])) + Shift(origin, items[..i + 1])
  }

  /** The landmark-free weight of item i. */
  function Weight(E: real -> real, alpha: real, origin: int, items: seq<Item>, i: nat): real
    requires i < |items|
  {
    Ratio(Growth(E, alpha, Effective(origin, items, i)), items[i].draw)
  }

  /** The key of item i after all the items. */
  function Key(E: real -> real, alpha: real, origin: int, items: seq<Item>, i: nat): real
    requires i < |items|
  {
    Ratio(Growth(E, alpha, Effective(origin, items, i) - Shift(origin, items)), items[i].draw)
  }

  function Weights(E: real -> real, alpha: real, origin: int, items: seq<Item>): (w: seq<real>)
    ensures |w| == |items|
  {
    seq(|items|, i requires 0 <= i < |items| => Weight(E, alpha, origin, items, i))
  }

  function Keys(E: real -> real, alpha: real, origin: int, items: seq<Item>): (w: seq<real>)
    ensures |w| == |items|
  {
    seq(|items|, i requires 0 <= i < |items| => Key(E, alpha, origin, items, i))
  }

  /** Every draw from (0,1) came out positive. */
  ghost predicate Positive(items: seq<Item>) {
    forall i :: 0 <= i < |items| ==> items[i].draw > 0.0
  }

  ghost predicate Distinct(w: seq<real>) {
    forall i, j :: 0 <= i < j < |w| ==> w[i] != w[j]
  }

  // ---------- Keeping the k largest ----------

  /** `kept` are the k largest of w, or all of them when there are fewer. */
  ghost predicate IsTop(kept: set<nat>, w: seq<real>, k: nat) {
    && (forall i :: i in kept ==> i < |w|)
    && |kept| == (if k <= |w| then k else |w|)
    && (forall i, j :: i in kept && 0 <= j < |w| && j !in kept ==> w[j] < w[i])
  }

  ghost predicate HasItem(values: map<real, int>, keys: seq<real>, items: seq<Item>, i: nat) {
    i < |keys| && i < |items| && keys[i] in values && values[keys[i]] == items[i].value
  }

  ghost predicate IsKey(kept: set<nat>, keys: seq<real>, x: real) {
    exists i :: i in kept && i < |keys| && keys[i] == x
  }

  /** The map has exactly the kept items, each under its key. */
  ghost predicate Holds(values: map<real, int>, kept: set<nat>, keys: seq<real>, items: seq<Item>) {
    && |keys| == |items|
    && (forall i :: i in kept ==> HasItem(values, keys, items, i))
    && (forall x :: x in values ==> IsKey(kept, keys, x))
  }

  lemma NotInOther(a: set<nat>, b: set<nat>) returns (y: nat)
    requires |a| == |b| && a != b
    ensures y in b && y !in a
  {
    if b <= a {
      SubsetIsAll(b, a);
    }
    y :| y in b && y !in a;
  }

  /** The top of a sequence is determined. */
  lemma TopIsUnique(a: set<nat>, b: set<nat>, w: seq<real>, k: nat)
    requires IsTop(a, w, k) && IsTop(b, w, k)
    ensures a == b
  {
    if a != b {
      var x := NotInOther(b, a);
      var y := NotInOther(a, b);
      assert false;
    }
  }

  lemma {:induction false} ImageSize(kept: set<nat>, keys: seq<real>)
    requires Distinct(keys) && forall i :: i in kept ==> i < |keys|
    ensures |set i | i in kept :: keys[i]| == |kept|
    decreases |kept|
  {
    if kept != {} {
      var x :| x in kept;
      ImageSize(kept - {x}, keys);
      assert (set i | i in kept :: keys[i]) == (set i | i in kept - {x} :: keys[i]) + {keys[x]};
    }
  }

  lemma HeldSize(values: map<real, int>, kept: set<nat>, keys: seq<real>, items: seq<Item>)
    requires Holds(values, kept, keys, items) && Distinct(keys)
    ensures |values| == |kept|
  {
    assert forall i :: i in kept ==> HasItem(values, keys, items, i);
    forall x | x in values ensures x in set i | i in kept :: keys[i] {
      assert IsKey(kept, keys, x);
    }
    assert values.Keys == set i | i in kept :: keys[i];
    ImageSize(kept, keys);
  }

  // ---------- One rescale ----------

  lemma OnlyPreimage(values: map<real, int>, kept: set<nat>, keys: seq<real>, keys': seq<real>,
                     items: seq<Item>, f: real -> real, i: nat)
    requires Holds(values, kept, keys, items) && |keys'| == |keys| && Distinct(keys') && i in kept
    requires forall j :: 0 <= j < |keys| ==> f(keys[j]) == keys'[j]
    ensures HasItem(values, keys, items, i) && LargestPreimage(values, f, keys[i])
  {
  }

  /** A rescale that maps distinct keys to distinct keys keeps every item, under its new key. */
  lemma RescaleHolds(values: map<real, int>, kept: set<nat>, keys: seq<real>, keys': seq<real>,
                     items: seq<Item>, f: real -> real)
    requires Holds(values, kept, keys, items) && |keys'| == |keys| && Distinct(keys')
    requires forall i :: 0 <= i < |keys| ==> f(keys[i]) == keys'[i]
    ensures Holds(Rescaled(values, f), kept, keys', items)
  {
    var r := Rescaled(values, f);
    RescaledKeepsLargest(values, f);
    hide Rescaled;
    forall i | i in kept ensures HasItem(r, keys', items, i) {
      OnlyPreimage(values, kept, keys, keys', items, f, i);
    }
    forall x | x in r ensures IsKey(kept, keys', x) {
      var y :| y in values && f(y) == x;
      assert IsKey(kept, keys, y);
      var i :| i in kept && i < |keys| && keys[i] == y;
      assert keys'[i] == x;
    }
  }

  // ---------- One insertion ----------

  lemma ExtendHolds(values: map<real, int>, kept: set<nat>, keys: seq<real>, items: seq<Item>, key: real, x: Item)
    requires Holds(values, kept, keys, items)
    ensures Holds(values, kept, keys + [key], items + [x])
  {
  }

  lemma NewKeyIsNew(values: map<real, int>, kept: set<nat>, keys: seq<real>, items: seq<Item>, n: nat)
    requires Holds(values, kept, keys, items) && Distinct(keys) && n < |keys| && n !in kept
    ensures keys[n] !in values
  {
    assert forall i :: i in kept && i < |keys| ==> keys[i] != keys[n];
    assert !IsKey(kept, keys, keys[n]);
  }

  lemma AddHolds(values: map<real, int>, kept: set<nat>, keys: seq<real>, items: seq<Item>, n: nat)
    requires Holds(values, kept, keys, items) && Distinct(keys) && n < |keys| && n !in kept
    ensures Holds(values[keys[n] := items[n].value], kept + {n}, keys, items)
  {
  }

  lemma ReplaceTop(kept: set<nat>, keys: seq<real>, key: real, k: nat, least: nat)
    requires IsTop(kept, keys, k) && |keys| >= k && least in kept && keys[least] < key
    requires forall i :: i in kept && i != least ==> keys[least] < keys[i]
    ensures IsTop(kept - {least} + {|keys|}, keys + [key], k)
  {
    var n, keys', kept' := |keys|, keys + [key], kept - {least} + {|keys|};
    assert n !in kept;
    forall i, j | i in kept' && 0 <= j < |keys'| && j !in kept' ensures keys'[j] < keys'[i] {
      assert j < n && keys'[j] == keys[j];
      assert j == least || j !in kept;
      assert i == n || (i in kept && keys'[i] == keys[i]);
    }
  }

  /** The entry that begin() designates belongs to the lightest kept item. */
  lemma LeastKept(values: map<real, int>, kept: set<nat>, keys: seq<real>, items: seq<Item>) returns (least: nat)
    requires Holds(values, kept, keys, items) && Distinct(keys) && values != map[]
    ensures least in kept && least < |keys| && keys[least] == MinKey(values)
    ensures forall i :: i in kept && i != least ==> i < |keys| && keys[least] < keys[i]
  {
    var first := MinKey(values);
    assert IsKey(kept, keys, first);
    least :| least in kept && least < |keys| && keys[least] == first;
    forall i | i in kept && i != least ensures i < |keys| && keys[least] < keys[i] {
      assert HasItem(values, keys, items, i) && keys[i] != keys[least];
    }
  }

  /** The state of the map and of the counter after n items, for a reservoir of k. */
  ghost predicate Tracks(k: nat, s: State, kept: set<nat>, keys: seq<real>, items: seq<Item>) {
    && Holds(s.values, kept, keys, items) && IsTop(kept, keys, k)
    && (|items| <= k ==> s.count == |items|)
    && (|items| >= k ==> s.count >= k)
  }

  lemma {:induction false} Everything(kept: set<nat>, n: nat)
    requires |kept| == n && forall i :: i in kept ==> i < n
    ensures forall i :: 0 <= i < n ==> i in kept
    decreases n
  {
    if n > 0 {
      if n - 1 in kept {
        Everything(kept - {n - 1}, n - 1);
        forall i | 0 <= i < n ensures i in kept {
          assert i < n - 1 ==> i in kept - {n - 1};
        }
      } else {
        TooMany(kept, n - 1);
      }
    }
  }

  lemma {:induction false} TooMany(kept: set<nat>, n: nat)
    requires forall i :: i in kept ==> i < n
    ensures |kept| <= n
    decreases n
  {
    if n == 0 {
      assert kept == {};
    } else {
      TooMany(kept - {n - 1}, n - 1);
    }
  }

  lemma TopGrows(kept: set<nat>, keys: seq<real>, key: real, k: nat)
    requires IsTop(kept, keys, k) && |keys| < k
    ensures IsTop(kept + {|keys|}, keys + [key], k)
  {
    Everything(kept, |keys|);
  }

  lemma InsertGrowing(k: nat, s: State, kept: set<nat>, keys: seq<real>, items: seq<Item>, x: Item, key: real)
    requires Tracks(k, s, kept, keys, items) && |keys| == |items| < k && Distinct(keys + [key])
    ensures Tracks(k, Inserted(k, s, key, x.value), kept + {|items|}, keys + [key], items + [x])
  {
    var n := |items|;
    assert n !in kept;
    ExtendHolds(s.values, kept, keys, items, key, x);
    AddHolds(s.values, kept, keys + [key], items + [x], n);
    TopGrows(kept, keys, key, k);
    hide Holds, Distinct, IsTop;
  }

  lemma InsertFull(k: nat, s: State, kept: set<nat>, keys: seq<real>, items: seq<Item>, x: Item, key: real)
    returns (kept': set<nat>)
    requires Tracks(k, s, kept, keys, items) && |items| >= k > 0 && Distinct(keys + [key])
    ensures Tracks(k, Inserted(k, s, key, x.value), kept', keys + [key], items + [x])
  {
    HeldNonEmpty(k, s, kept, keys, items);
    ExtendHolds(s.values, kept, keys, items, key, x);
    var least := LeastKept(s.values, kept, keys + [key], items + [x]);
    NewKeyIsNew(s.values, kept, keys + [key], items + [x], |items|);
    if keys[least] < key {
      kept' := kept - {least} + {|items|};
      ReplaceTop(kept, keys, key, k, least);
      ReplaceHolds(s.values, kept, keys + [key], items + [x], |items|, least);
    } else {
      kept' := kept;
      TopStays(kept, keys, key, k, least);
    }
    hide Holds, IsTop, Distinct, IsKey, HasItem;
  }

  lemma HeldNonEmpty(k: nat, s: State, kept: set<nat>, keys: seq<real>, items: seq<Item>)
    requires Tracks(k, s, kept, keys, items) && |items| >= k > 0
    ensures s.values != map[] && |items| !in kept
  {
  }

  lemma TopStays(kept: set<nat>, keys: seq<real>, key: real, k: nat, least: nat)
    requires IsTop(kept, keys, k) && |keys| >= k && least in kept && least < |keys| && key < keys[least]
    requires forall i :: i in kept && i != least ==> i < |keys| && keys[least] < keys[i]
    ensures IsTop(kept, keys + [key], k)
  {
  }

  lemma ReplaceHolds(values: map<real, int>, kept: set<nat>, keys: seq<real>, items: seq<Item>, n: nat, least: nat)
    requires Holds(values, kept, keys, items) && Distinct(keys)
    requires n < |keys| == |items| && n !in kept && least in kept && least < |keys|
    ensures Holds(values[keys[n] := items[n].value] - {keys[least]}, kept - {least} + {n}, keys, items)
  {
  }

  // ---------- Whole runs ----------

  function Scaled(keys: seq<real>, factor: real): (r: seq<real>)
    ensures |r| == |keys|
  {
    seq(|keys|, i requires 0 <= i < |keys| => Product(keys[i], factor))
  }

  lemma ScaledOrder(w: seq<real>, factor: real, kept: set<nat>, k: nat)
    requires factor > 0.0
    ensures Distinct(w) <==> Distinct(Scaled(w, factor))
    ensures IsTop(kept, w, k) <==> IsTop(kept, Scaled(w, factor), k)
  {
    forall i, j | 0 <= i < |w| && 0 <= j < |w|
      ensures w[i] == w[j] <==> Scaled(w, factor)[i] == Scaled(w, factor)[j]
      ensures w[i] < w[j] <==> Scaled(w, factor)[i] < Scaled(w, factor)[j]
    {
      ScaleOrder(w[i], w[j], factor);
    }
  }

  lemma EffectivePrefix(origin: int, items: seq<Item>, x: Item, i: nat)
    requires i < |items|
    ensures Effective(origin, items + [x], i) == Effective(origin, items, i)
  {
    assert (items + [x])[..i + 1] == items[..i + 1];
  }

  /** The gap by which the landmark moves when x arrives, in whole seconds. */
  function Gap(origin: int, items: seq<Item>, x: Item): int {
    Seconds(Landmark(origin, items + [x]) - Landmark(origin, items))
  }

  lemma ShiftStep(origin: int, items: seq<Item>, x: Item)
    ensures Init(items + [x]) == items && Last(items + [x]) == x
    ensures Shift(origin, items + [x]) == Shift(origin, items) + Gap(origin, items, x)
  {
  }

  lemma KeyAges(E: real -> real, alpha: real, origin: int, items: seq<Item>, x: Item, i: nat)
    requires IsExp(E) && i < |items| && items[i].draw > 0.0
    ensures Key(E, alpha, origin, items + [x], i)
         == Product(Key(E, alpha, origin, items, i), Growth(E, alpha, -Gap(origin, items, x)))
  {
    ShiftStep(origin, items, x);
    EffectivePrefix(origin, items, x, i);
    hide Growth, Ratio, Product, Effective, Shift, Gap;
    var age := Effective(origin, items, i) - Shift(origin, items);
    GrowthAdds(E, alpha, age, -Gap(origin, items, x));
    RatioScales(Growth(E, alpha, age), Growth(E, alpha, -Gap(origin, items, x)), items[i].draw);
  }

  lemma KeyOfNewest(E: real -> real, alpha: real, origin: int, items: seq<Item>, x: Item)
    ensures Key(E, alpha, origin, items + [x], |items|)
         == Ratio(Growth(E, alpha, Seconds(x.timestamp - Landmark(origin, items + [x]))), x.draw)
  {
    var all := items + [x];
    assert all[..|items| + 1] == all;
    hide Growth, Ratio, Shift, Landmark, Seconds;
  }

  /** When x arrives every earlier key is scaled by the same factor, and x gets its priority as key. */
  lemma KeysStep(E: real -> real, alpha: real, origin: int, items: seq<Item>, x: Item)
    requires IsExp(E) && Positive(items)
    ensures Keys(E, alpha, origin, items + [x])
         == Scaled(Keys(E, alpha, origin, items), Growth(E, alpha, -Gap(origin, items, x)))
            + [Ratio(Growth(E, alpha, Seconds(x.timestamp - Landmark(origin, items + [x]))), x.draw)]
  {
    hide Growth, Ratio, Product, Key, Landmark, Seconds, Gap;
    forall i | 0 <= i < |items|
      ensures Key(E, alpha, origin, items + [x], i)
           == Product(Key(E, alpha, origin, items, i), Growth(E, alpha, -Gap(origin, items, x)))
    {
      KeyAges(E, alpha, origin, items, x, i);
    }
    KeyOfNewest(E, alpha, origin, items, x);
  }

  /** Keys are weights seen from the current landmark: all scaled by one positive factor. */
  lemma KeysAreScaledWeights(E: real -> real, alpha: real, origin: int, items: seq<Item>)
    requires IsExp(E) && Positive(items)
    ensures Growth(E, alpha, -Shift(origin, items)) > 0.0
    ensures Keys(E, alpha, origin, items)
         == Scaled(Weights(E, alpha, origin, items), Growth(E, alpha, -Shift(origin, items)))
  {
    var d := Shift(origin, items);
    GrowthAdds(E, alpha, -d, 0);
    forall i | 0 <= i < |items|
      ensures Key(E, alpha, origin, items, i) == Product(Weight(E, alpha, origin, items, i), Growth(E, alpha, -d))
    {
      var e := Effective(origin, items, i);
      GrowthAdds(E, alpha, e, -d);
      RatioScales(Growth(E, alpha, e), Growth(E, alpha, -d), items[i].draw);
    }
  }

  lemma WeightsPrefix(E: real -> real, alpha: real, origin: int, items: seq<Item>, x: Item)
    ensures Weights(E, alpha, origin, items + [x])[..|items|] == Weights(E, alpha, origin, items)
  {
    forall i | 0 <= i < |items|
      ensures Weight(E, alpha, origin, items + [x], i) == Weight(E, alpha, origin, items, i)
    {
      EffectivePrefix(origin, items, x, i);
    }
  }

  /** The code's start_time_ and next_scale_time_ depend on the timestamps only. */
  lemma {:induction false} StartIsLandmark(a: Arithmetic, k: nat, origin: int, items: seq<Item>)
    ensures Run(a, k, origin, items).startTime == Landmark(origin, items)
    ensures Run(a, k, origin, items).nextScaleTime == Landmark(origin, items) + RESCALE_THRESHOLD
  {
    if items != [] {
      StartIsLandmark(a, k, origin, Init(items));
    }
  }

  lemma ExactDecaying(E: real -> real, alpha: real, dur: int)
    requires IsExp(E)
    ensures Growth(E, alpha, -dur) > 0.0
    ensures forall key :: Decaying(ExactArithmetic(E, alpha), dur)(key) == Product(key, Growth(E, alpha, -dur))
  {
    GrowthAdds(E, alpha, -dur, 0);
    hide Growth, Product;
  }

  lemma GrowthOfZero(E: real -> real, alpha: real, n: int)
    requires IsExp(E) && n == 0
    ensures Growth(E, alpha, n) == 1.0
  {
    assert n as real == 0.0;
    var x := alpha * n as real;
    assert x == 0.0;
  }

  lemma NoDecay(E: real -> real, alpha: real, keys: seq<real>)
    requires IsExp(E)
    ensures Growth(E, alpha, -Seconds(0)) == 1.0
    ensures Scaled(keys, Growth(E, alpha, -Seconds(0))) == keys
  {
    var factor := Growth(E, alpha, -Seconds(0));
    GrowthOfZero(E, alpha, -Seconds(0));
    assert forall i :: 0 <= i < |keys| ==> Scaled(keys, factor)[i] == keys[i];
  }

  lemma ScaleTracks(k: nat, s: State, kept: set<nat>, keys: seq<real>, items: seq<Item>, f: real -> real, factor: real)
    requires Tracks(k, s, kept, keys, items) && Distinct(keys) && factor > 0.0
    requires forall key :: f(key) == Product(key, factor)
    ensures var values := Rescaled(s.values, f);
      && Holds(values, kept, Scaled(keys, factor), items)
      && IsTop(kept, Scaled(keys, factor), k)
      && |values| == if k <= |items| then k else |items|
  {
    ScaledOrder(keys, factor, kept, k);
    RescaleHolds(s.values, kept, keys, Scaled(keys, factor), items, f);
    hide Rescaled, Holds, Distinct;
    HeldSize(Rescaled(s.values, f), kept, Scaled(keys, factor), items);
    HoldsLengths(Rescaled(s.values, f), kept, Scaled(keys, factor), items);
  }

  lemma HoldsLengths(values: map<real, int>, kept: set<nat>, keys: seq<real>, items: seq<Item>)
    requires Holds(values, kept, keys, items)
    ensures |keys| == |items|
  {
  }

  /** A rescale scales every key by the same factor and keeps every item; its new count is min(k,N). */
  lemma RescaleTracks(E: real -> real, alpha: real, k: nat, s: State, kept: set<nat>, keys: seq<real>,
                      items: seq<Item>, now: int)
    requires IsExp(E) && Tracks(k, s, kept, keys, items) && Distinct(keys)
    requires s.nextScaleTime == s.startTime + RESCALE_THRESHOLD
    ensures var s' := RescaledIfNeeded(ExactArithmetic(E, alpha), s, now);
      Tracks(k, s', kept, Scaled(keys, Growth(E, alpha, -Seconds(s'.startTime - s.startTime))), items)
  {
    hide Rescaled, Holds, Distinct, IsTop, Growth, Scaled, Seconds, Decaying, ExactArithmetic, IsExp;
    if s.nextScaleTime < now {
      var dur := Seconds(now - s.startTime);
      ExactDecaying(E, alpha, dur);
      ScaleTracks(k, s, kept, keys, items, Decaying(ExactArithmetic(E, alpha), dur), Growth(E, alpha, -dur));
    } else {
      NoDecay(E, alpha, keys);
    }
  }

  /**
   * For every sequence of updates: the map holds exactly the items of largest landmark-free weight, min(k,N) of
   * them, each under its weight as seen from the current landmark, wherever the rescales fell.
   */
  lemma {:induction false} HeaviestAreHeld(E: real -> real, alpha: real, k: nat, origin: int, items: seq<Item>)
    returns (kept: set<nat>)
    requires IsExp(E) && k > 0
    requires Positive(items)
    requires Distinct(Weights(E, alpha, origin, items))
    ensures IsTop(kept, Weights(E, alpha, origin, items), k)
    ensures Tracks(k, Run(ExactArithmetic(E, alpha), k, origin, items), kept, Keys(E, alpha, origin, items), items)
    decreases |items|
  {
    hide Weights, Keys, Tracks, IsTop, Distinct, Run, IsExp;
    if items == [] {
      kept := {};
      NothingHeld(E, alpha, k, origin);
    } else {
      var init, x := Init(items), Last(items);
      assert items == init + [x];
      PositivePrefix(items);
      DistinctPrefix(E, alpha, origin, init, x);
      var before := HeaviestAreHeld(E, alpha, k, origin, init);
      kept := OneMoreItem(E, alpha, k, origin, init, x, before);
      TracksTop(k, Run(ExactArithmetic(E, alpha), k, origin, items), kept, Keys(E, alpha, origin, items), items);
      TopByWeight(E, alpha, k, origin, items, kept);
    }
  }

  lemma PositivePrefix(items: seq<Item>)
    requires Positive(items) && items != []
    ensures Positive(Init(items))
  {
  }

  lemma TracksTop(k: nat, s: State, kept: set<nat>, keys: seq<real>, items: seq<Item>)
    requires Tracks(k, s, kept, keys, items)
    ensures IsTop(kept, keys, k) && |keys| == |items|
  {
  }

  lemma NothingHeld(E: real -> real, alpha: real, k: nat, origin: int)
    ensures IsTop({}, Weights(E, alpha, origin, []), k)
    ensures Tracks(k, Run(ExactArithmetic(E, alpha), k, origin, []), {}, Keys(E, alpha, origin, []), [])
  {
  }

  /** Ordering by key is ordering by weight. */
  lemma TopByWeight(E: real -> real, alpha: real, k: nat, origin: int, items: seq<Item>, kept: set<nat>)
    requires IsExp(E) && Positive(items)
    ensures IsTop(kept, Weights(E, alpha, origin, items), k) <==> IsTop(kept, Keys(E, alpha, origin, items), k)
    ensures Distinct(Weights(E, alpha, origin, items)) <==> Distinct(Keys(E, alpha, origin, items))
  {
    hide Weights, Keys, IsTop, Distinct, Growth;
    KeysAreScaledWeights(E, alpha, origin, items);
    ScaledOrder(Weights(E, alpha, origin, items), Growth(E, alpha, -Shift(origin, items)), kept, k);
  }

  lemma DistinctPrefix(E: real -> real, alpha: real, origin: int, init: seq<Item>, x: Item)
    requires Distinct(Weights(E, alpha, origin, init + [x]))
    ensures Distinct(Weights(E, alpha, origin, init))
  {
    WeightsPrefix(E, alpha, origin, init, x);
    hide Weights;
    var w := Weights(E, alpha, origin, init + [x]);
    assert |w| == |init| + 1;
    assert forall i :: 0 <= i < |init| ==> w[..|init|][i] == w[i];
  }

  lemma RunStepAny(a: Arithmetic, k: nat, origin: int, init: seq<Item>, x: Item)
    ensures var s := Run(a, k, origin, init);
      var s' := RescaledIfNeeded(a, s, x.timestamp);
      && s.nextScaleTime == s.startTime + RESCALE_THRESHOLD
      && s'.startTime - s.startTime == Landmark(origin, init + [x]) - Landmark(origin, init)
      && Run(a, k, origin, init + [x])
         == Inserted(k, s', a.priority(Seconds(x.timestamp - Landmark(origin, init + [x])), x.draw), x.value)
  {
    assert Init(init + [x]) == init;
    StartIsLandmark(a, k, origin, init);
    hide Rescaled, Inserted, Seconds;
  }

  /** The run's last step, with every landmark expressed from the timestamps. */
  lemma RunStep(E: real -> real, alpha: real, k: nat, origin: int, init: seq<Item>, x: Item)
    ensures var a := ExactArithmetic(E, alpha);
      var s := Run(a, k, origin, init);
      var s' := RescaledIfNeeded(a, s, x.timestamp);
      && s.nextScaleTime == s.startTime + RESCALE_THRESHOLD
      && Seconds(s'.startTime - s.startTime) == Gap(origin, init, x)
      && Run(a, k, origin, init + [x])
         == Inserted(k, s', Ratio(Growth(E, alpha, Seconds(x.timestamp - Landmark(origin, init + [x]))), x.draw),
                     x.value)
  {
    hide Rescaled, Inserted, Growth, Ratio, ExactArithmetic, Seconds, Landmark, Run, RescaledIfNeeded;
    RunStepAny(ExactArithmetic(E, alpha), k, origin, init, x);
    PriorityIs(E, alpha, Seconds(x.timestamp - Landmark(origin, init + [x])), x.draw);
  }

  lemma PriorityIs(E: real -> real, alpha: real, dur: int, u: real)
    ensures ExactArithmetic(E, alpha).priority(dur, u) == Ratio(Growth(E, alpha, dur), u)
  {
  }

  lemma OneMoreItem(E: real -> real, alpha: real, k: nat, origin: int, init: seq<Item>, x: Item, before: set<nat>)
    returns (kept: set<nat>)
    requires IsExp(E) && k > 0
    requires Positive(init) && Positive(init + [x])
    requires Distinct(Weights(E, alpha, origin, init + [x])) && Distinct(Weights(E, alpha, origin, init))
    requires Tracks(k, Run(ExactArithmetic(E, alpha), k, origin, init), before, Keys(E, alpha, origin, init), init)
    ensures Tracks(k, Run(ExactArithmetic(E, alpha), k, origin, init + [x]), kept,
                   Keys(E, alpha, origin, init + [x]), init + [x])
  {
    hide *;
    var a, keys := ExactArithmetic(E, alpha), Keys(E, alpha, origin, init);
    var s := Run(a, k, origin, init);
    TopByWeight(E, alpha, k, origin, init, {});
    TopByWeight(E, alpha, k, origin, init + [x], {});
    RunStep(E, alpha, k, origin, init, x);
    RescaleTracks(E, alpha, k, s, before, keys, init, x.timestamp);
    KeysStep(E, alpha, origin, init, x);
    kept := InsertAny(k, RescaledIfNeeded(a, s, x.timestamp), before,
                      Scaled(keys, Growth(E, alpha, -Gap(origin, init, x))), init, x,
                      Ratio(Growth(E, alpha, Seconds(x.timestamp - Landmark(origin, init + [x]))), x.draw));
  }

  lemma InsertAny(k: nat, s: State, before: set<nat>, keys: seq<real>, items: seq<Item>, x: Item, key: real)
    returns (kept: set<nat>)
    requires Tracks(k, s, before, keys, items) && k > 0 && |keys| == |items| && Distinct(keys + [key])
    ensures Tracks(k, Inserted(k, s, key, x.value), kept, keys + [key], items + [x])
  {
    if |items| < k {
      InsertGrowing(k, s, before, keys, items, x, key);
      kept := before + {|items|};
    } else {
      kept := InsertFull(k, s, before, keys, items, x, key);
    }
  }

  // ---------- Whole-second timestamps ----------

  lemma {:induction false} WholeSecondLandmarks(origin: int, items: seq<Item>)
    requires forall i :: 0 <= i < |items| ==> (items[i].timestamp - origin) % SECOND == 0
    ensures Landmark(origin, items) == origin + Shift(origin, items) * SECOND
  {
    if items != [] {
      WholeSecondLandmarks(origin, Init(items));
    }
  }

  /** At whole-second offsets nothing is truncated: the age of an item is its offset. */
  lemma WholeSecondAge(origin: int, items: seq<Item>, i: nat)
    requires i < |items| && forall j :: 0 <= j < |items| ==> (items[j].timestamp - origin) % SECOND == 0
    ensures Effective(origin, items, i) == (items[i].timestamp - origin) / SECOND
  {
    WholeSecondLandmarks(origin, items[..i + 1]);
  }

  /** The weight of an item t seconds after the start, with draw u, is exp(alpha*t)/u. */
  lemma WholeSecondWeight(E: real -> real, alpha: real, origin: int, items: seq<Item>, i: nat, t: int)
    requires i < |items| && forall j :: 0 <= j < |items| ==> (items[j].timestamp - origin) % 1_000_000_000 == 0
    requires items[i].timestamp == origin + t * 1_000_000_000 && items[i].draw > 0.0
    ensures Weight(E, alpha, origin, items, i) * items[i].draw == E(alpha * t as real)
  {
    WholeSecondAge(origin, items, i);
    hide Effective, Ratio, Growth;
    assert Effective(origin, items, i) == t;
    GrowthIs(E, alpha, t);
    DivideBack(E(alpha * t as real), items[i].draw);
  }

  /** Of two items with equal draws the later one weighs more; of two at one time, the one with the smaller draw. */
  lemma LaterWeighsMore(E: real -> real, alpha: real, origin: int, items: seq<Item>, i: nat, j: nat)
    requires IsExp(E) && alpha > 0.0 && Positive(items) && i < |items| && j < |items|
    requires forall x :: 0 <= x < |items| ==> (items[x].timestamp - origin) % 1_000_000_000 == 0
    ensures items[i].draw == items[j].draw && items[i].timestamp < items[j].timestamp ==>
      Weight(E, alpha, origin, items, i) < Weight(E, alpha, origin, items, j)
    ensures items[i].timestamp == items[j].timestamp && items[j].draw < items[i].draw ==>
      Weight(E, alpha, origin, items, i) < Weight(E, alpha, origin, items, j)
  {
    var a, b := (items[i].timestamp - origin) / SECOND, (items[j].timestamp - origin) / SECOND;
    WholeSecondWeight(E, alpha, origin, items, i, a);
    WholeSecondWeight(E, alpha, origin, items, j, b);
    hide Weight, SECOND;
    if items[i].timestamp < items[j].timestamp {
      GrowsInTime(E, alpha, a, b);
    } else if items[i].timestamp == items[j].timestamp {
      GrowthIs(E, alpha, a);
      GrowthIs(E, alpha, b);
      assert Growth(E, alpha, a) == Growth(E, alpha, b);
    }
    CompareQuotients(E(alpha * a as real), E(alpha * b as real), Weight(E, alpha, origin, items, i),
                     Weight(E, alpha, origin, items, j), items[i].draw, items[j].draw);
  }

  lemma CompareQuotients(x: real, y: real, v: real, w: real, u: real, d: real)
    requires u > 0.0 && d > 0.0 && x > 0.0 && v * u == x && w * d == y
    ensures u == d && x < y ==> v < w
    ensures x == y && d < u ==> v < w
  {
    if u == d && x < y {
      SmallerFactor(v, w, u);
    }
    if x == y && d < u {
      LargerQuotient(v, w, u, d, x);
    }
  }

  lemma GrowsInTime(E: real -> real, alpha: real, a: int, b: int)
    requires IsExp(E) && alpha > 0.0 && a < b
    ensures E(alpha * a as real) < E(alpha * b as real)
  {
    ScaleStrict(a as real, b as real, alpha);
    assert Grows(E, alpha * a as real, alpha * b as real);
  }

  lemma SmallerFactor(v: real, w: real, u: real)
    requires u > 0.0 && v * u < w * u
    ensures v < w
  {
  }

  lemma LargerQuotient(v: real, w: real, u: real, d: real, x: real)
    requires 0.0 < d < u && v * u == x && w * d == x && x > 0.0
    ensures v < w
  {
    PositiveFactor(w, d);
    ScaleStrict(d, u, w);
    SmallerFactor(v, w, u);
  }

  lemma PositiveFactor(w: real, d: real)
    requires d > 0.0 && w * d > 0.0
    ensures w > 0.0
  {
  }

  // ---------- Drift with sub-second timestamps ----------

  /** How far the age in item i's key exceeds its true age since the current landmark, in nanoseconds. */
  function Drift(origin: int, items: seq<Item>, i: nat): int
    requires i < |items|
  {
    (Effective(origin, items, i) - Shift(origin, items)) * SECOND
      - (items[i].timestamp - Landmark(origin, items))
  }

  /** Truncation costs an item at most one second when inserted and gains it less than one per rescale. */
  lemma {:induction false} DriftBounded(origin: int, items: seq<Item>, i: nat)
    requires i < |items| && items[i].timestamp >= Landmark(origin, items[..i + 1])
    ensures var m := Rescales(origin, items) - Rescales(origin, items[..i + 1]);
      && m >= 0
      && -SECOND < Drift(origin, items, i) <= m * SECOND
      && (m > 0 ==> Drift(origin, items, i) < m * SECOND)
    decreases |items|
  {
    if i == |items| - 1 {
      assert items[..i + 1] == items;
    } else {
      var init := Init(items);
      assert init[..i + 1] == items[..i + 1] && items == init + [Last(items)];
      DriftBounded(origin, init, i);
      EffectivePrefix(origin, init, Last(items), i);
    }
  }

  /** A timestamp before the landmark is truncated the other way: the same bounds with one second more to gain. */
  lemma {:induction false} DriftBoundedForAnyTime(origin: int, items: seq<Item>, i: nat)
    requires i < |items|
    ensures var m := Rescales(origin, items) - Rescales(origin, items[..i + 1]);
      m >= 0 && -SECOND < Drift(origin, items, i) < (m + 1) * SECOND
    decreases |items|
  {
    if i == |items| - 1 {
      assert items[..i + 1] == items;
    } else {
      var init := Init(items);
      assert init[..i + 1] == items[..i + 1] && items == init + [Last(items)];
      DriftBoundedForAnyTime(origin, init, i);
      EffectivePrefix(origin, init, Last(items), i);
    }
  }

  /** Without any assumption on the weights, every key is the key of some item and carries its value. */
  lemma {:induction false} KeysComeFromItems(E: real -> real, alpha: real, k: nat, origin: int, items: seq<Item>)
    requires IsExp(E) && Positive(items)
    ensures var values := Run(ExactArithmetic(E, alpha), k, origin, items).values;
      forall x :: x in values ==> IsItem(values, Keys(E, alpha, origin, items), items, x)
  {
    hide IsItem, Keys, Growth, Ratio, Rescaled, Inserted, RescaledIfNeeded, Landmark, Seconds, Gap, Scaled, IsExp,
      ExactArithmetic;
    if items != [] {
      var init, x := Init(items), Last(items);
      assert items == init + [x];
      PositivePrefix(items);
      KeysComeFromItems(E, alpha, k, origin, init);
      var s := Run(ExactArithmetic(E, alpha), k, origin, init);
      RunStep(E, alpha, k, origin, init, x);
      KeysStep(E, alpha, origin, init, x);
      RescaledItems(E, alpha, s, Keys(E, alpha, origin, init), init, x.timestamp);
      InsertedItems(k, RescaledIfNeeded(ExactArithmetic(E, alpha), s, x.timestamp),
                    Scaled(Keys(E, alpha, origin, init), Growth(E, alpha, -Gap(origin, init, x))), init, x,
                    Ratio(Growth(E, alpha, Seconds(x.timestamp - Landmark(origin, items))), x.draw));
    }
  }

  ghost predicate IsItem(values: map<real, int>, keys: seq<real>, items: seq<Item>, x: real) {
    exists i :: 0 <= i < |keys| && keys[i] == x && HasItem(values, keys, items, i)
  }

  lemma RescaledItems(E: real -> real, alpha: real, s: State, keys: seq<real>, items: seq<Item>, now: int)
    requires IsExp(E) && |keys| == |items| && forall x :: x in s.values ==> IsItem(s.values, keys, items, x)
    requires s.nextScaleTime == s.startTime + RESCALE_THRESHOLD
    ensures var s' := RescaledIfNeeded(ExactArithmetic(E, alpha), s, now);
      var keys' := Scaled(keys, Growth(E, alpha, -Seconds(s'.startTime - s.startTime)));
      forall x :: x in s'.values ==> IsItem(s'.values, keys', items, x)
  {
    hide Rescaled, Growth, Scaled, Seconds, Decaying, ExactArithmetic, IsExp, IsItem;
    if s.nextScaleTime < now {
      var dur := Seconds(now - s.startTime);
      ExactDecaying(E, alpha, dur);
      ScaledItems(s.values, keys, items, Decaying(ExactArithmetic(E, alpha), dur), Growth(E, alpha, -dur));
    } else {
      NoDecay(E, alpha, keys);
    }
  }

  lemma ScaledItems(values: map<real, int>, keys: seq<real>, items: seq<Item>, f: real -> real, factor: real)
    requires |keys| == |items| && factor > 0.0 && forall x :: x in values ==> IsItem(values, keys, items, x)
    requires forall key :: f(key) == Product(key, factor)
    ensures forall x :: x in Rescaled(values, f) ==> IsItem(Rescaled(values, f), Scaled(keys, factor), items, x)
  {
    var r := Rescaled(values, f);
    RescaledKeepsLargest(values, f);
    hide Rescaled, Product;
    forall x | x in r ensures IsItem(r, Scaled(keys, factor), items, x) {
      var y :| y in values && f(y) == x;
      forall z | z in values && f(z) == f(y) ensures z == y { EqualScaled(z, y, factor); }
      assert LargestPreimage(values, f, y);
      ItemScaled(values, keys, items, r, factor, y);
    }
  }

  lemma EqualScaled(a: real, b: real, factor: real)
    requires factor > 0.0 && Product(a, factor) == Product(b, factor)
    ensures a == b
  {
    ScaleOrder(a, b, factor);
  }

  lemma ItemScaled(values: map<real, int>, keys: seq<real>, items: seq<Item>, r: map<real, int>, factor: real, y: real)
    requires y in values && IsItem(values, keys, items, y)
    requires Product(y, factor) in r && r[Product(y, factor)] == values[y]
    ensures IsItem(r, Scaled(keys, factor), items, Product(y, factor))
  {
    hide Product;
    var i :| 0 <= i < |keys| && keys[i] == y && HasItem(values, keys, items, i);
    assert Scaled(keys, factor)[i] == Product(y, factor);
    assert HasItem(r, Scaled(keys, factor), items, i);
  }

  lemma InsertedItems(k: nat, s: State, keys: seq<real>, items: seq<Item>, x: Item, key: real)
    requires |keys| == |items| && forall y :: y in s.values ==> IsItem(s.values, keys, items, y)
    ensures var r := Inserted(k, s, key, x.value).values;
      forall y :: y in r ==> IsItem(r, keys + [key], items + [x], y)
  {
    var r := Inserted(k, s, key, x.value).values;
    var keys', items' := keys + [key], items + [x];
    forall y | y in r ensures IsItem(r, keys', items', y) {
      if y in s.values && r[y] == s.values[y] {
        assert IsItem(s.values, keys, items, y);
        var i :| 0 <= i < |keys| && keys[i] == y && HasItem(s.values, keys, items, i);
        assert keys'[i] == y && items'[i] == items[i] && HasItem(r, keys', items', i);
      } else {
        assert keys'[|keys|] == y && items'[|keys|] == x && HasItem(r, keys', items', |keys|);
      }
    }
  }

  // ---------- The object ----------

  /** The reservoir object, whatever its history: its map holds its heaviest items, and nothing else. */
  lemma ReservoirHoldsHeaviest(r: ExpDecaySample, E: real -> real, alpha: real)
    returns (kept: set<nat>)
    requires r.Valid() && IsExp(E) && r.arithmetic == ExactArithmetic(E, alpha)
    requires Positive(r.history) && Distinct(Weights(E, alpha, r.origin, r.history))
    ensures IsTop(kept, Weights(E, alpha, r.origin, r.history), r.reservoirSize)
    ensures Holds(r.values, kept, Keys(E, alpha, r.origin, r.history), r.history)
    ensures |r.values| == |kept| == if r.reservoirSize <= |r.history| then r.reservoirSize else |r.history|
  {
    kept := HeaviestAreHeld(E, alpha, r.reservoirSize, r.origin, r.history);
    TopByWeight(E, alpha, r.reservoirSize, r.origin, r.history, kept);
    HeldSize(r.values, kept, Keys(E, alpha, r.origin, r.history), r.history);
  }
}

/** Exponentially weighted moving averages: the class, its closed form, and the three coded decay rates. */
module Ewma {
  import opened Algebra
  import opened Exponential

  /** The value of an EWMA object. */
  datatype Average = Average(initialized: bool, ewma: real, uncounted: nat)

  const FRESH := Average(false, 0.0, 0)

  function Blend(alpha: real, current: real, rate: real): real {
    current + Product(alpha, rate - current)
  }

  function InstantRate(count: nat, intervalNanos: nat): real
    requires intervalNanos > 0
  {
    count as real / intervalNanos as real
  }

  function Updated(a: Average, n: nat): Average {
    a.(uncounted := a.uncounted + n)
  }

  function Ticked(alpha: real, intervalNanos: nat, a: Average): Average
    requires intervalNanos > 0
  {
    var rate := InstantRate(a.uncounted, intervalNanos);
    Average(true, if a.initialized then Blend(alpha, a.ewma, rate) else rate, 0)
  }

  class EWMA {
    const alpha: real
    const intervalNanos: nat
    var initialized: bool
    var ewma: real
    var uncounted: nat

    function State(): Average
      reads this
    {
      Average(initialized, ewma, uncounted)
    }

    constructor (alpha: real, intervalNanos: nat)
      ensures this.alpha == alpha && this.intervalNanos == intervalNanos
      ensures State() == FRESH == Average(false, 0.0, 0)
    {
      this.alpha, this.intervalNanos := alpha, intervalNanos;
      initialized, ewma, uncounted := false, 0.0, 0;
    }

    method Update(n: nat)
      modifies this
      ensures State() == Updated(old(State()), n)
    {
      uncounted := uncounted + n;
    }

    method Tick()
      requires intervalNanos > 0
      modifies this
      ensures State() == Ticked(alpha, intervalNanos, old(State()))
    {
      var count := uncounted;
      uncounted := 0;
      var instantRate := count as real / intervalNanos as real;
      if initialized {
        ewma := ewma + Product(alpha, instantRate - ewma);
      } else {
        ewma := instantRate;
        initialized := true;
      }
    }

    function GetRate(duration: nat): real
      reads this
    {
      ewma * duration as real
    }
  }

  // ---------- Closed form ----------

  /** From fresh: each count is updated and then ticked. */
  function AfterTicks(alpha: real, intervalNanos: nat, counts: seq<nat>): Average
    requires intervalNanos > 0
  {
    if counts == [] then FRESH
    else
      var before := AfterTicks(alpha, intervalNanos, counts[..|counts| - 1]);
      Ticked(alpha, intervalNanos, Updated(before, counts[|counts| - 1]))
  }

  /** The weight of tick i after ticks 0..n. */
  function Weight(alpha: real, n: nat, i: nat): real
    requires i <= n
  {
    if i == 0 then Power(1.0 - alpha, n) else Product(alpha, Power(1.0 - alpha, n - i))
  }

  /** The weighted sum of the first m rates, as weighted after ticks 0..n. */
  function WeightedSum(alpha: real, n: nat, rates: seq<real>, m: nat): real
    requires m <= |rates| && m <= n + 1
  {
    if m == 0 then 0.0
    else WeightedSum(alpha, n, rates, m - 1) + Product(Weight(alpha, n, m - 1), rates[m - 1])
  }

  function Rates(intervalNanos: nat, counts: seq<nat>): (r: seq<real>)
    requires intervalNanos > 0
    ensures |r| == |counts|
  {
    seq(|counts|, i requires 0 <= i < |counts| => InstantRate(counts[i], intervalNanos))
  }

  /** One more tick scales every earlier weight by 1-alpha. */
  lemma {:induction false} WeightedSumAges(alpha: real, n: nat, rates: seq<real>, m: nat)
    requires m <= |rates| && m <= n + 1
    ensures WeightedSum(alpha, n + 1, rates, m) == Product(1.0 - alpha, WeightedSum(alpha, n, rates, m))
  {
    if m > 0 {
      WeightedSumAges(alpha, n, rates, m - 1);
      var w := Weight(alpha, n, m - 1);
      WeightAges(alpha, n, m - 1);
      AgeOne(1.0 - alpha, WeightedSum(alpha, n, rates, m - 1), w, rates[m - 1]);
    }
  }

  lemma WeightAges(alpha: real, n: nat, i: nat)
    requires i <= n
    ensures Weight(alpha, n + 1, i) == Product(1.0 - alpha, Weight(alpha, n, i))
  {
    if i > 0 {
      assert n + 1 - i == (n - i) + 1;
      ProductAssociates(alpha, Power(1.0 - alpha, n - i), 1.0 - alpha);
    }
  }

  lemma AgeOne(d: real, sum: real, w: real, r: real)
    ensures Product(d, sum + Product(w, r)) == Product(d, sum) + Product(Product(d, w), r)
  {
  }

  lemma BlendSplits(alpha: real, current: real, rate: real)
    ensures Blend(alpha, current, rate) == Product(1.0 - alpha, current) + Product(alpha, rate)
  {
  }

  lemma {:induction false} WeightedSumPrefix(alpha: real, n: nat, a: seq<real>, b: seq<real>, m: nat)
    requires m <= |a| && m <= |b| && m <= n + 1 && a[..m] == b[..m]
    ensures WeightedSum(alpha, n, a, m) == WeightedSum(alpha, n, b, m)
  {
    if m > 0 {
      assert a[m - 1] == a[..m][m - 1] == b[..m][m - 1] == b[m - 1];
      assert a[..m - 1] == a[..m][..m - 1] && b[..m - 1] == b[..m][..m - 1];
      WeightedSumPrefix(alpha, n, a, b, m - 1);
    }
  }

  /** After ticks with rates r0..rn the average is (1-a)^n r0 + sum of a(1-a)^(n-i) ri. */
  lemma {:induction false} ClosedForm(alpha: real, intervalNanos: nat, counts: seq<nat>)
    requires intervalNanos > 0 && |counts| > 0
    ensures var a := AfterTicks(alpha, intervalNanos, counts);
      && a.initialized && a.uncounted == 0
      && a.ewma == WeightedSum(alpha, |counts| - 1, Rates(intervalNanos, counts), |counts|)
  {
    var n := |counts| - 1;
    var rates := Rates(intervalNanos, counts);
    if n == 0 {
      assert WeightedSum(alpha, 0, rates, 1) == 0.0 + Product(1.0, rates[0]);
    } else {
      var earlier := counts[..n];
      ClosedForm(alpha, intervalNanos, earlier);
      var old_ := Rates(intervalNanos, earlier);
      assert old_ == rates[..n];
      WeightedSumPrefix(alpha, n - 1, old_, rates, n);
      WeightedSumAges(alpha, n - 1, rates, n);
      BlendSplits(alpha, WeightedSum(alpha, n - 1, rates, n), rates[n]);
      assert Weight(alpha, n, n) == Product(alpha, 1.0);
    }
  }

  function Ones(n: nat): (r: seq<real>)
    ensures |r| == n
  {
    seq(n, _ => 1.0)
  }

  /** The weights of the closed form sum to one. */
  lemma {:induction false} WeightsSumToOne(alpha: real, n: nat)
    ensures WeightedSum(alpha, n, Ones(n + 1), n + 1) == 1.0
  {
    if n == 0 {
      assert WeightedSum(alpha, 0, Ones(1), 0) == 0.0;
    } else {
      WeightsSumToOne(alpha, n - 1);
      WeightedSumPrefix(alpha, n - 1, Ones(n), Ones(n + 1), n);
      WeightedSumAges(alpha, n - 1, Ones(n + 1), n);
      assert Weight(alpha, n, n) == Product(alpha, 1.0);
    }
  }

  // ---------- Idle time ----------

  /** n ticks in a row. */
  function Ticks(alpha: real, intervalNanos: nat, a: Average, n: nat): Average
    requires intervalNanos > 0
  {
    if n == 0 then a else Ticked(alpha, intervalNanos, Ticks(alpha, intervalNanos, a, n - 1))
  }

  /** Without marks, n ticks multiply an initialised average by (1-alpha)^n. */
  lemma {:induction false} IdleDecay(alpha: real, intervalNanos: nat, x: real, n: nat)
    requires intervalNanos > 0
    ensures Ticks(alpha, intervalNanos, Average(true, x, 0), n)
         == Average(true, Product(Power(1.0 - alpha, n), x), 0)
  {
    if n > 0 {
      IdleDecay(alpha, intervalNanos, x, n - 1);
      var p := Power(1.0 - alpha, n - 1);
      assert InstantRate(0, intervalNanos) == 0.0;
      DecayOnce(alpha, p, x);
    }
  }

  lemma DecayOnce(alpha: real, p: real, x: real)
    ensures Blend(alpha, Product(p, x), 0.0) == Product(Product(p, 1.0 - alpha), x)
  {
  }

  // ---------- The coded constants ----------

  const INTERVAL_IN_SEC := 5
  const ONE_MINUTE := 1
  const FIVE_MINUTES := 5
  const FIFTEEN_MINUTES := 15
  const INTERVAL_NANOS: nat := 5_000_000_000

  /** 1 - exp(-5 / (60 * minutes)), with E for exp. */
  function Alpha(E: real -> real, minutes: int): real
    requires minutes > 0
  {
    1.0 - E((-INTERVAL_IN_SEC) as real / (60 * minutes) as real)
  }

  /** A tick fades by 1-alpha, strictly between 0 and 1; over `minutes` minutes that makes exp(-1). */
  lemma AlphaFade(E: real -> real, minutes: int)
    requires IsExp(E) && minutes > 0
    ensures 0.0 < Alpha(E, minutes) < 1.0
    ensures Power(1.0 - Alpha(E, minutes), 12 * minutes) == E(-1.0)
  {
    var x := (-INTERVAL_IN_SEC) as real / (60 * minutes) as real;
    assert x * (60 * minutes) as real == -5.0;
    assert (12 * minutes) as real * x == -1.0;
    ExpOfMultiple(E, x, 12 * minutes, -1.0);
    assert x < 0.0;
    assert Grows(E, x, 0.0);
  }

  /** From one common rate, the 1-, 5- and 15-minute averages agree after m, 5m and 15m idle minutes. */
  lemma EqualAfterScaledIdle(E: real -> real, x: real, m: nat)
    requires IsExp(E)
    ensures var from := Average(true, x, 0);
      Ticks(Alpha(E, ONE_MINUTE), INTERVAL_NANOS, from, 12 * m)
        == Ticks(Alpha(E, FIVE_MINUTES), INTERVAL_NANOS, from, 60 * m)
        == Ticks(Alpha(E, FIFTEEN_MINUTES), INTERVAL_NANOS, from, 180 * m)
  {
    IdleMinutes(E, ONE_MINUTE, x, m);
    IdleMinutes(E, FIVE_MINUTES, x, m);
    IdleMinutes(E, FIFTEEN_MINUTES, x, m);
  }

  lemma IdleMinutes(E: real -> real, minutes: int, x: real, m: nat)
    requires IsExp(E) && minutes > 0
    ensures Ticks(Alpha(E, minutes), INTERVAL_NANOS, Average(true, x, 0), 12 * minutes * m)
         == Average(true, Product(Power(E(-1.0), m), x), 0)
  {
    AlphaFade(E, minutes);
    IdleDecay(Alpha(E, minutes), INTERVAL_NANOS, x, 12 * minutes * m);
    PowerOfPower(1.0 - Alpha(E, minutes), 12 * minutes, m);
  }

  /** After equal idle time the shorter window has faded more. */
  lemma ShorterWindowFadesFaster(E: real -> real, x: real, n: nat)
    requires IsExp(E) && x >= 0.0
    ensures var from := Average(true, x, 0);
      Ticks(Alpha(E, ONE_MINUTE), INTERVAL_NANOS, from, n).ewma
        <= Ticks(Alpha(E, FIVE_MINUTES), INTERVAL_NANOS, from, n).ewma
        <= Ticks(Alpha(E, FIFTEEN_MINUTES), INTERVAL_NANOS, from, n).ewma
  {
    LongerWindow(E, ONE_MINUTE, FIVE_MINUTES, x, n);
    LongerWindow(E, FIVE_MINUTES, FIFTEEN_MINUTES, x, n);
  }

  lemma LongerWindow(E: real -> real, short: int, long: int, x: real, n: nat)
    requires IsExp(E) && x >= 0.0 && 0 < short < long
    ensures Ticks(Alpha(E, short), INTERVAL_NANOS, Average(true, x, 0), n).ewma
         <= Ticks(Alpha(E, long), INTERVAL_NANOS, Average(true, x, 0), n).ewma
  {
    var p, q := (-5) as real / (60 * short) as real, (-5) as real / (60 * long) as real;
    FractionOrder(short, long);
    assert Grows(E, p, q);
    IdleDecay(Alpha(E, short), INTERVAL_NANOS, x, n);
    IdleDecay(Alpha(E, long), INTERVAL_NANOS, x, n);
    PowerOrder(E(p), E(q), n);
    ScaleMonotone(Power(E(p), n), Power(E(q), n), x);
  }

  lemma FractionOrder(short: int, long: int)
    requires 0 < short < long
    ensures (-5) as real / (60 * short) as real < (-5) as real / (60 * long) as real
  {
    var a, b := (60 * short) as real, (60 * long) as real;
    var p, q := (-5) as real / a, (-5) as real / b;
    assert p * a == -5.0 && q * b == -5.0;
    if p >= q {
      ScaleMonotone(q, p, a);
      ScaleStrict(-q, -q + 1.0, b - a);
    }
  }
}

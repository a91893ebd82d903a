/** The statistics engine: a sorted copy of a reservoir, its quantiles and its moments. */
module Snapshot {
  import opened Algebra
  import opened Results

  // ---------- Sorted sequences ----------

  ghost predicate Sorted(s: seq<int>) {
    forall i, j :: 0 <= i < j < |s| ==> s[i] <= s[j]
  }

  lemma SortedHead(s: seq<int>, t: seq<int>)
    requires Sorted(s) && Sorted(t) && multiset(s) == multiset(t) && |s| > 0
    ensures |t| > 0 && s[0] <= t[0]
  {
    assert |t| == |multiset(t)| == |multiset(s)|;
    assert t[0] in multiset(s);
    assert t[0] in s;
  }

  /** Any two sorted arrangements of the same values are the same sequence. */
  lemma {:induction false} SortedIsUnique(s: seq<int>, t: seq<int>)
    requires Sorted(s) && Sorted(t) && multiset(s) == multiset(t)
    ensures s == t
    decreases |s|
  {
    if s == [] {
      assert |t| == |multiset(t)| == 0;
    } else {
      SortedHead(s, t);
      SortedHead(t, s);
      var x, a, b := s[0], s[1..], t[1..];
      assert s == [x] + a && t == [x] + b;
      assert multiset(a) == multiset(b) by {
        RemoveFromBoth(x, a, t, 0);
        assert t[..0] + t[0 + 1..] == b;
      }
      SortedIsUnique(a, b);
    }
  }

  // ---------- Quantiles ----------

  function Between(lower: real, upper: real, fraction: real): real {
    lower + fraction * (upper - lower)
  }

  /** The interpolated value at (one-based, fractional) position `pos` of the sorted sequence `s`. */
  function AtPosition(s: seq<int>, pos: real): real
    requires |s| > 0
  {
    if pos < 1.0 then s[0] as real
    else if pos >= |s| as real then s[|s| - 1] as real
    else Between(s[pos.Floor - 1] as real, s[pos.Floor] as real, pos - pos.Floor as real)
  }

  /** The position that a quantile asks for among `n` values. */
  function Position(n: nat, quantile: real): real {
    quantile * (n + 1) as real
  }

  /** The value reported for `quantile` by a snapshot holding the sorted sequence `s`. */
  function Quantile(s: seq<int>, quantile: real): (r: Result<real>) {
    if quantile < 0.0 || quantile > 1.0 then InvalidArgument
    else if |s| == 0 then Success(0.0)
    else Success(AtPosition(s, Position(|s|, quantile)))
  }

  /** Which calls are refused, and what an empty snapshot answers. */
  lemma QuantileRefused(s: seq<int>, quantile: real)
    ensures Quantile(s, quantile) == InvalidArgument <==> quantile < 0.0 || quantile > 1.0
    ensures s == [] && 0.0 <= quantile <= 1.0 ==> Quantile(s, quantile) == Success(0.0)
  {
  }

  /**
   * Position q(n+1) = p+f lies between the p-th and the next value: the report divides their distance as f does.
   * Before the first and after the last value it is that value.
   */
  lemma QuantileInterpolates(s: seq<int>, q: real, p: nat, f: real)
    requires 0.0 <= q <= 1.0 && |s| > 0 && 0.0 <= f < 1.0
    requires q * (|s| + 1) as real == p as real + f
    ensures Quantile(s, q).Success?
    ensures 1 <= p < |s| ==> Quantile(s, q).value - s[p - 1] as real == f * (s[p] - s[p - 1]) as real
    ensures p < 1 ==> Quantile(s, q).value == s[0] as real
    ensures p >= |s| ==> Quantile(s, q).value == s[|s| - 1] as real
  {
    assert Position(|s|, q) == p as real + f;
    assert (p as real + f).Floor == p;
    if 1 <= p < |s| {
      assert (s[p] - s[p - 1]) as real == s[p] as real - s[p - 1] as real;
    }
  }

  lemma QuantileAt(s: seq<int>, q: real)
    ensures Quantile(s, q) == InvalidArgument <==> q < 0.0 || q > 1.0
    ensures s == [] && 0.0 <= q <= 1.0 ==> Quantile(s, q) == Success(0.0)
    ensures 0.0 <= q <= 1.0 && |s| > 0 ==>
      var pos := q * (|s| + 1) as real;
      var p := pos.Floor;
      && Quantile(s, q).Success?
      && (p < 1 ==> Quantile(s, q).value == s[0] as real)
      && (p >= |s| ==> Quantile(s, q).value == s[|s| - 1] as real)
      && (1 <= p < |s| ==> Quantile(s, q).value - s[p - 1] as real == (pos - p as real) * (s[p] - s[p - 1]) as real)
  {
    QuantileRefused(s, q);
    if 0.0 <= q <= 1.0 && |s| > 0 {
      PositionOrder(|s|, q, q);
      var pos := q * (|s| + 1) as real;
      assert Position(|s|, q) == pos;
      hide Quantile, Position;
      QuantileInterpolates(s, q, pos.Floor, pos - pos.Floor as real);
    }
  }

  lemma BetweenBounds(lower: real, upper: real, f: real)
    requires lower <= upper && 0.0 <= f <= 1.0
    ensures lower <= Between(lower, upper, f) <= upper
  {
    ScaleMonotone(0.0, f, upper - lower);
    ScaleMonotone(f, 1.0, upper - lower);
  }

  lemma BetweenMonotone(lower: real, upper: real, f: real, g: real)
    requires lower <= upper && f <= g
    ensures Between(lower, upper, f) <= Between(lower, upper, g)
  {
    ScaleMonotone(f, g, upper - lower);
  }

  lemma PositionOrder(n: nat, q1: real, q2: real)
    requires 0.0 <= q1 <= q2 <= 1.0
    ensures 0.0 <= Position(n, q1) <= Position(n, q2) <= (n + 1) as real
  {
    ScaleMonotone(0.0, q1, (n + 1) as real);
    ScaleMonotone(q1, q2, (n + 1) as real);
    ScaleMonotone(q2, 1.0, (n + 1) as real);
  }

  /** The value at a position lies between the order statistics on either side of it. */
  lemma PositionBracket(s: seq<int>, pos: real)
    requires Sorted(s) && |s| > 0
    ensures forall i :: 0 <= i < |s| && i < pos.Floor ==> s[i] as real <= AtPosition(s, pos)
    ensures forall i :: 0 <= i < |s| && pos.Floor <= i ==> AtPosition(s, pos) <= s[i] as real
    ensures s[0] as real <= AtPosition(s, pos) <= s[|s| - 1] as real
  {
    if 1.0 <= pos < |s| as real {
      var p := pos.Floor;
      BetweenBounds(s[p - 1] as real, s[p] as real, pos - p as real);
      forall i | 0 <= i < |s|
        ensures i < p ==> s[i] as real <= AtPosition(s, pos)
        ensures p <= i ==> AtPosition(s, pos) <= s[i] as real
      {
        assert i < p ==> s[i] <= s[p - 1];
        assert p <= i ==> s[p] <= s[i];
      }
    }
  }

  lemma PositionMonotone(s: seq<int>, p1: real, p2: real)
    requires Sorted(s) && |s| > 0 && p1 <= p2
    ensures AtPosition(s, p1) <= AtPosition(s, p2)
  {
    PositionBracket(s, p1);
    PositionBracket(s, p2);
    if 1.0 <= p1 && p2 < |s| as real {
      var i, j := p1.Floor, p2.Floor;
      if i == j {
        BetweenMonotone(s[i - 1] as real, s[i] as real, p1 - i as real, p2 - i as real);
      } else {
        assert AtPosition(s, p1) <= s[i] as real <= AtPosition(s, p2);
      }
    }
  }

  /** A larger quantile never reports a smaller value, and none leaves the range of the values. */
  lemma QuantileMonotone(s: seq<int>, q1: real, q2: real)
    requires Sorted(s) && |s| > 0 && 0.0 <= q1 <= q2 <= 1.0
    ensures Quantile(s, q1).Success? && Quantile(s, q2).Success?
    ensures s[0] as real <= Quantile(s, q1).value <= Quantile(s, q2).value <= s[|s| - 1] as real
  {
    PositionOrder(|s|, q1, q2);
    PositionBracket(s, Position(|s|, q1));
    PositionBracket(s, Position(|s|, q2));
    PositionMonotone(s, Position(|s|, q1), Position(|s|, q2));
  }

  /** The percentile getters are ordered, from minimum to maximum. */
  lemma PercentilesOrdered(s: seq<int>)
    requires Sorted(s) && |s| > 0
    ensures var q := (x: real) => Quantile(s, x);
      && q(0.5).Success? && q(0.75).Success? && q(0.95).Success?
      && q(0.98).Success? && q(0.99).Success? && q(0.999).Success?
      && s[0] as real <= q(0.5).value <= q(0.75).value <= q(0.95).value
           <= q(0.98).value <= q(0.99).value <= q(0.999).value <= s[|s| - 1] as real
  {
    QuantileMonotone(s, 0.5, 0.75);
    QuantileMonotone(s, 0.75, 0.95);
    QuantileMonotone(s, 0.95, 0.98);
    QuantileMonotone(s, 0.98, 0.99);
    QuantileMonotone(s, 0.99, 0.999);
  }

  function CountAtMost(s: seq<int>, v: real): nat {
    if s == [] then 0 else (if s[0] as real <= v then 1 else 0) + CountAtMost(s[1..], v)
  }

  function CountAtLeast(s: seq<int>, v: real): nat {
    if s == [] then 0 else (if s[0] as real >= v then 1 else 0) + CountAtLeast(s[1..], v)
  }

  lemma {:induction false} CountsSplit(a: seq<int>, b: seq<int>, v: real)
    ensures CountAtMost(a + b, v) == CountAtMost(a, v) + CountAtMost(b, v)
    ensures CountAtLeast(a + b, v) == CountAtLeast(a, v) + CountAtLeast(b, v)
  {
    if a == [] {
      assert a + b == b;
    } else {
      assert (a + b)[1..] == a[1..] + b;
      CountsSplit(a[1..], b, v);
    }
  }

  lemma {:induction false} CountsIgnoreOrder(a: seq<int>, b: seq<int>, v: real)
    requires multiset(a) == multiset(b)
    ensures CountAtMost(a, v) == CountAtMost(b, v) && CountAtLeast(a, v) == CountAtLeast(b, v)
  {
    hide CountAtMost, CountAtLeast;
    if a == [] {
      assert |multiset(b)| == 0;
    } else {
      CountsSplit([a[0]], a[1..], v);
      assert a[0] in multiset(b);
      var i :| 0 <= i < |b| && b[i] == a[0];
      assert b == b[..i] + ([b[i]] + b[i + 1..]);
      assert a == [a[0]] + a[1..];
      RemoveFromBoth(a[0], a[1..], b, i);
      CountsIgnoreOrder(a[1..], b[..i] + b[i + 1..], v);
      CountsSplit(b[..i], b[i + 1..], v);
      CountsSplit([b[i]], b[i + 1..], v);
      CountsSplit(b[..i], [b[i]] + b[i + 1..], v);
    }
  }

  lemma {:induction false} CountAll(s: seq<int>, v: real)
    ensures (forall i :: 0 <= i < |s| ==> s[i] as real <= v) ==> CountAtMost(s, v) == |s|
    ensures (forall i :: 0 <= i < |s| ==> s[i] as real >= v) ==> CountAtLeast(s, v) == |s|
  {
    if s != [] {
      CountAll(s[1..], v);
    }
  }

  lemma PositionCoverage(s: seq<int>, pos: real)
    requires Sorted(s) && |s| > 0 && 0.0 <= pos
    ensures var v, p := AtPosition(s, pos), pos.Floor;
      && CountAtMost(s, v) >= (if p <= |s| then p else |s|)
      && CountAtLeast(s, v) >= |s| - p
  {
    PositionBracket(s, pos);
    hide AtPosition;
    CountsAroundCut(s, if pos.Floor <= |s| then pos.Floor else |s|, AtPosition(s, pos));
  }

  lemma CountsAroundCut(s: seq<int>, cut: nat, v: real)
    requires cut <= |s|
    requires forall i :: 0 <= i < cut ==> s[i] as real <= v
    requires forall i :: cut <= i < |s| ==> v <= s[i] as real
    ensures CountAtMost(s, v) >= cut && CountAtLeast(s, v) >= |s| - cut
  {
    assert s == s[..cut] + s[cut..];
    CountsSplit(s[..cut], s[cut..], v);
    CountAll(s[..cut], v);
    CountAll(s[cut..], v);
  }

  /** For any input, in whatever order: enough values lie on each side of the reported quantile. */
  lemma QuantileIsOrderStatistic(values: seq<int>, s: seq<int>, quantile: real)
    requires Sorted(s) && multiset(values) == multiset(s)
    requires |values| > 0 && 0.0 <= quantile <= 1.0
    ensures Quantile(s, quantile).Success?
    ensures var v, p := Quantile(s, quantile).value, (quantile * (|values| + 1) as real).Floor;
      && CountAtMost(values, v) >= (if p <= |values| then p else |values|)
      && CountAtLeast(values, v) >= |values| - p
  {
    assert |values| == |multiset(values)| == |s|;
    var pos := Position(|s|, quantile);
    assert pos == quantile * (|values| + 1) as real;
    hide AtPosition, Position;
    PositionOrder(|s|, quantile, quantile);
    PositionCoverage(s, pos);
    CountsIgnoreOrder(values, s, AtPosition(s, pos));
  }

  // ---------- Moments ----------

  function Sum(s: seq<int>): int {
    if s == [] then 0 else Sum(s[..|s| - 1]) + s[|s| - 1]
  }

  function SumOfSquares(s: seq<int>): int {
    if s == [] then 0 else SumOfSquares(s[..|s| - 1]) + s[|s| - 1] * s[|s| - 1]
  }

  function Mean(s: seq<int>): real {
    if s == [] then 0.0 else Sum(s) as real / |s| as real
  }

  /** The sum of squared distances of the values from `centre`. */
  function SquaredDistances(s: seq<int>, centre: real): real {
    if s == [] then 0.0
    else SquaredDistances(s[..|s| - 1], centre) + Square(s[|s| - 1] as real - centre)
  }

  lemma {:induction false} SquaredDistancesExpand(s: seq<int>, c: real)
    ensures SquaredDistances(s, c)
         == SumOfSquares(s) as real - 2.0 * (c * Sum(s) as real) + |s| as real * Square(c)
  {
    if s != [] {
      SquaredDistancesExpand(s[..|s| - 1], c);
      var x := s[|s| - 1] as real;
      SquareOfDifference(x, c);
      assert c * Sum(s) as real == c * Sum(s[..|s| - 1]) as real + c * x;
      assert |s| as real * Square(c) == (|s| - 1) as real * Square(c) + Square(c);
    }
  }

  lemma MeanTimesSize(s: seq<int>)
    ensures Mean(s) * |s| as real == Sum(s) as real
  {
  }

  lemma {:induction false} SumBounds(s: seq<int>, lo: int, hi: int)
    requires forall i :: 0 <= i < |s| ==> lo <= s[i] <= hi
    ensures |s| * lo <= Sum(s) <= |s| * hi
  {
    if s != [] {
      SumBounds(s[..|s| - 1], lo, hi);
      assert |s| * lo == (|s| - 1) * lo + lo && |s| * hi == (|s| - 1) * hi + hi;
    }
  }

  /** The mean lies between the smallest and the largest value. */
  lemma MeanWithinRange(s: seq<int>)
    requires Sorted(s) && |s| > 0
    ensures s[0] as real <= Mean(s) <= s[|s| - 1] as real
  {
    SumBounds(s, s[0], s[|s| - 1]);
    DivideBounds(Sum(s), |s|, s[0], s[|s| - 1]);
  }

  lemma DivideBounds(sum: int, n: nat, lo: int, hi: int)
    requires n > 0 && n * lo <= sum <= n * hi
    ensures lo as real <= sum as real / n as real <= hi as real
  {
    QuotientBounds(sum as real, n as real, lo as real, hi as real);
  }

  lemma MeanTimesSum(m: real, n: real, sum: real)
    requires m * n == sum
    ensures m * sum == n * Square(m)
  {
  }

  lemma SpreadAround(s: seq<int>, m: real)
    requires m * |s| as real == Sum(s) as real
    ensures SquaredDistances(s, m) == SumOfSquares(s) as real - |s| as real * Square(m)
  {
    hide SquaredDistances, Sum, SumOfSquares, Square;
    SquaredDistancesExpand(s, m);
    MeanTimesSum(m, |s| as real, Sum(s) as real);
  }

  /** The two-pass sum equals the textbook one-pass form. */
  lemma SpreadIsSquaresMinusMean(s: seq<int>)
    ensures SquaredDistances(s, Mean(s))
         == SumOfSquares(s) as real - |s| as real * Square(Mean(s))
  {
    MeanTimesSize(s);
    SpreadAround(s, Mean(s));
  }

  lemma {:induction false} SpreadPositive(s: seq<int>, c: real)
    ensures SquaredDistances(s, c) >= 0.0
    ensures SquaredDistances(s, c) == 0.0 <==> forall i :: 0 <= i < |s| ==> s[i] as real == c
  {
    if s != [] {
      var last := |s| - 1;
      SpreadPositive(s[..last], c);
      var d := s[last] as real - c;
      SquarePositive(d);
      assert forall i :: 0 <= i < last ==> s[..last][i] == s[i];
    }
  }

  lemma {:induction false} SumOfConstant(s: seq<int>, x: int)
    requires forall i :: 0 <= i < |s| ==> s[i] == x
    ensures Sum(s) == |s| * x
  {
    if s != [] {
      SumOfConstant(s[..|s| - 1], x);
      assert |s| * x == (|s| - 1) * x + x;
    }
  }

  /** The spread vanishes exactly when all values coincide. */
  lemma SpreadZeroIffConstant(s: seq<int>)
    ensures SquaredDistances(s, Mean(s)) == 0.0
       <==> forall i, j :: 0 <= i < |s| && 0 <= j < |s| ==> s[i] == s[j]
  {
    SpreadPositive(s, Mean(s));
    if |s| > 0 && forall i, j :: 0 <= i < |s| && 0 <= j < |s| ==> s[i] == s[j] {
      SumOfConstant(s, s[0]);
      DivideBounds(Sum(s), |s|, s[0], s[0]);
    }
  }

  lemma {:induction false} SpreadAroundMidpoint(s: seq<int>, lo: int, hi: int)
    requires forall i :: 0 <= i < |s| ==> lo <= s[i] <= hi
    ensures 4.0 * SquaredDistances(s, (lo + hi) as real / 2.0) <= |s| as real * Square((hi - lo) as real)
  {
    if s != [] {
      SpreadAroundMidpoint(s[..|s| - 1], lo, hi);
      var x := s[|s| - 1];
      var d := x as real - (lo + hi) as real / 2.0;
      var a, b := (hi - x) as real, (x - lo) as real;
      assert 2.0 * d == b - a;
      assert 4.0 * Square(d) == Square(a + b) - 4.0 * (a * b);
      assert a * b >= 0.0;
      assert a + b == (hi - lo) as real;
    }
  }

  /** Popoviciu's bound: the spread is at most a quarter of n times the squared range. */
  lemma SpreadBound(s: seq<int>)
    requires Sorted(s) && |s| > 0
    ensures 4.0 * SquaredDistances(s, Mean(s)) <= |s| as real * Square((s[|s| - 1] - s[0]) as real)
  {
    hide SquaredDistances, Sum, SumOfSquares, Square, Mean;
    SpreadAroundMidpoint(s, s[0], s[|s| - 1]);
    MeanTimesSize(s);
    SpreadLeastAtMean(s, Mean(s), (s[0] + s[|s| - 1]) as real / 2.0);
  }

  /** No other centre gives a smaller sum of squared distances than the mean. */
  lemma SpreadLeastAtMean(s: seq<int>, m: real, c: real)
    requires m * |s| as real == Sum(s) as real
    ensures SquaredDistances(s, m) <= SquaredDistances(s, c)
  {
    hide SquaredDistances, Sum, SumOfSquares, Square;
    SpreadAround(s, m);
    SquaredDistancesExpand(s, c);
    SpreadGap(c, m, |s| as real, Sum(s) as real);
  }

  lemma SpreadGap(c: real, m: real, n: real, sum: real)
    requires n >= 0.0 && m * n == sum
    ensures n * Square(m) >= 2.0 * (c * sum) - n * Square(c)
  {
    SquarePositive(m - c);
    ProductNonNegative(n, Square(m - c));
    SquareOfDifference(m, c);
    assert n * Square(m - c) == n * (m * m) - 2.0 * (n * (c * m)) + n * Square(c);
    assert n * (c * m) == c * (m * n);
  }

  lemma QuotientZero(x: real, n: real)
    requires x >= 0.0 && n > 0.0
    ensures x / n >= 0.0 && (x / n == 0.0 <==> x == 0.0) && x / n * n == x
  {
  }

  /** What getStdDev takes the square root of. */
  function Variance(s: seq<int>): real {
    if |s| <= 1 then 0.0 else SquaredDistances(s, Mean(s)) / (|s| - 1) as real
  }

  /** The variance: its one-pass form, its zeros, and its bound by the range. */
  lemma VarianceMeaning(s: seq<int>)
    requires Sorted(s) && |s| >= 2
    ensures Variance(s) * (|s| - 1) as real
         == SumOfSquares(s) as real - |s| as real * Square(Mean(s))
    ensures Variance(s) >= 0.0
    ensures Variance(s) == 0.0 <==> s[0] == s[|s| - 1]
    ensures 4.0 * (Variance(s) * (|s| - 1) as real)
         <= |s| as real * Square((s[|s| - 1] - s[0]) as real)
  {
    hide Square, SquaredDistances, Mean, Sum, SumOfSquares;
    SpreadIsSquaresMinusMean(s);
    SpreadZeroIffConstant(s);
    SpreadPositive(s, Mean(s));
    SpreadBound(s);
    QuotientZero(SquaredDistances(s, Mean(s)), (|s| - 1) as real);
  }

  // ---------- The class ----------

  method SwapWithPrevious(a: array<int>, j: nat)
    requires 0 < j < a.Length
    modifies a
    ensures a[j - 1] == old(a[j]) && a[j] == old(a[j - 1])
    ensures forall p :: 0 <= p < a.Length && p != j - 1 && p != j ==> a[p] == old(a[p])
    ensures multiset(a[..]) == multiset(old(a[..]))
  {
    a[j - 1], a[j] := a[j], a[j - 1];
  }

  /** Moves a[i] down into the sorted prefix before it. */
  method Sink(a: array<int>, i: nat)
    requires i < a.Length && Sorted(a[..i])
    modifies a
    ensures Sorted(a[..i + 1]) && multiset(a[..]) == multiset(old(a[..]))
  {
    var j := i;
    while j > 0 && a[j - 1] > a[j]
      invariant 0 <= j <= i
      invariant forall p, q :: 0 <= p < q <= i && q != j ==> a[p] <= a[q]
      invariant multiset(a[..]) == multiset(old(a[..]))
    {
      SwapWithPrevious(a, j);
      j := j - 1;
    }
  }

  /** Stands for std::sort: an in-place sort. */
  method Sort(a: array<int>)
    modifies a
    ensures Sorted(a[..]) && multiset(a[..]) == multiset(old(a[..]))
  {
    for i := 0 to a.Length
      invariant Sorted(a[..i])
      invariant multiset(a[..]) == multiset(old(a[..]))
    {
      Sink(a, i);
    }
    assert a[..] == a[..a.Length];
  }

  class Snapshot {
    const values: array<int>

    ghost predicate Valid() reads this, values { Sorted(values[..]) }

    constructor (input: seq<int>)
      ensures Valid() && fresh(values)
      ensures multiset(values[..]) == multiset(input)
    {
      values := new int[|input|](i requires 0 <= i < |input| => input[i]);
      new;
      assert values[..] == input;
      Sort(values);
    }

    function Size(): nat { values.Length }

    function GetValue(quantile: real): (r: Result<real>)
      reads this, values
      ensures r == InvalidArgument <==> quantile < 0.0 || quantile > 1.0
      ensures 0.0 <= quantile <= 1.0 && values.Length == 0 ==> r == Success(0.0)
      ensures 0.0 <= quantile <= 1.0 && values.Length > 0 ==>
        var n, pos := values.Length, quantile * (values.Length + 1) as real;
        var p := pos.Floor;
        && (p < 1 ==> r == Success(values[0] as real))
        && (p >= n ==> r == Success(values[n - 1] as real))
        && (1 <= p < n ==>
              r.value - values[p - 1] as real == (pos - p as real) * (values[p] - values[p - 1]) as real)
    {
      QuantileAt(values[..], quantile);
      Quantile(values[..], quantile)
    }

    function GetMin(): (r: int)
      requires Valid()
      reads this, values
      ensures values.Length == 0 ==> r == 0
      ensures values.Length > 0 ==> r in values[..] && forall i :: 0 <= i < values.Length ==> r <= values[i]
    {
      if values.Length == 0 then 0 else
        assert values[0] == values[..][0] && forall i :: 0 <= i < values.Length ==> values[i] == values[..][i];
        values[0]
    }

    function GetMax(): (r: int)
      requires Valid()
      reads this, values
      ensures values.Length == 0 ==> r == 0
      ensures values.Length > 0 ==> r in values[..] && forall i :: 0 <= i < values.Length ==> values[i] <= r
    {
      var last := values.Length - 1;
      assert values.Length > 0 ==> values[last] == values[..][last];
      assert forall i :: 0 <= i < values.Length ==> values[i] == values[..][i];
      if values.Length == 0 then 0 else values[values.Length - 1]
    }

    method GetMean() returns (r: real)
      requires Valid()
      ensures r == Mean(values[..]) && r * values.Length as real == Sum(values[..]) as real
      ensures values.Length == 0 ==> r == 0.0
      ensures GetMin() as real <= r <= GetMax() as real
    {
      if values.Length == 0 {
        return 0.0;
      }
      var mean := 0;
      for i := 0 to values.Length
        invariant mean == Sum(values[..i])
      {
        assert values[..i + 1][..i] == values[..i];
        mean := mean + values[i];
      }
      assert values[..] == values[..values.Length];
      MeanWithinRange(values[..]);
      r := mean as real / values.Length as real;
    }

    method GetVariance() returns (r: real)
      requires Valid()
      ensures r == Variance(values[..])
      ensures values.Length <= 1 ==> r == 0.0
    {
      if values.Length <= 1 {
        return 0.0;
      }
      var mean := GetMean();
      var sum := 0.0;
      for i := 0 to values.Length
        invariant sum == SquaredDistances(values[..i], mean)
      {
        var diff := values[i] as real - mean;
        assert values[..i + 1][..i] == values[..i];
        sum := sum + Square(diff);
      }
      assert values[..] == values[..values.Length];
      r := sum / (values.Length - 1) as real;
    }
  }

  /** Snapshots of the same values, in whatever order they were collected, answer every question alike. */
  lemma OrderOfInputIsLost(a: Snapshot, b: Snapshot)
    requires a.Valid() && b.Valid() && multiset(a.values[..]) == multiset(b.values[..])
    ensures a.Size() == b.Size() && a.GetMin() == b.GetMin() && a.GetMax() == b.GetMax()
    ensures Mean(a.values[..]) == Mean(b.values[..]) && Variance(a.values[..]) == Variance(b.values[..])
    ensures forall quantile: real :: a.GetValue(quantile) == b.GetValue(quantile)
  {
    SortedIsUnique(a.values[..], b.values[..]);
    assert a.Size() == |a.values[..]| == |b.values[..]|;
    assert forall i :: 0 <= i < a.Size() ==> a.values[i] == a.values[..][i] == b.values[..][i];
  }
}

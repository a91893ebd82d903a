/** Algorithm R is exactly uniform, by counting its choice sequences. */
module Uniformity {
  import opened Sets
  import opened UniformSample

  // ---------- Counting ----------

  function Factorial(n: nat): (r: nat)
    ensures r > 0
  {
    if n == 0 then 1 else n * Factorial(n - 1)
  }

  function Below(n: nat): (r: set<nat>)
    ensures forall i: nat :: i in r <==> i < n
    ensures |r| == n
  {
    if n == 0 then {} else Below(n - 1) + {n - 1}
  }

  function Elements(s: seq<nat>): set<nat> {
    set x | x in s
  }

  /** Every prefix in `prefixes`, continued by each draw that `next` allows after it. */
  ghost function Extend(prefixes: set<seq<nat>>, next: seq<nat> -> set<nat>): set<seq<nat>> {
    set c, d | c in prefixes && d in next(c) :: c + [d]
  }

  lemma SnocInjective(c1: seq<nat>, d1: nat, c2: seq<nat>, d2: nat)
    ensures c1 + [d1] == c2 + [d2] <==> c1 == c2 && d1 == d2
  {
    if c1 + [d1] == c2 + [d2] {
      assert (c1 + [d1])[..|c1|] == c1 && (c2 + [d2])[..|c2|] == c2;
      assert (c1 + [d1])[|c1|] == d1;
    }
  }

  lemma {:induction false} ContinuationsSize(c: seq<nat>, draws: set<nat>)
    ensures |set d | d in draws :: c + [d]| == |draws|
    decreases |draws|
  {
    if draws != {} {
      var x :| x in draws;
      var rest := draws - {x};
      ContinuationsSize(c, rest);
      var small, all := set d | d in rest :: c + [d], set d | d in draws :: c + [d];
      assert all == small + {c + [x]};
      assert c + [x] !in small by {
        forall d | d in rest ensures c + [d] != c + [x] { SnocInjective(c, d, c, x); }
      }
    }
  }

  lemma ExtendSplit(c: seq<nat>, rest: set<seq<nat>>, next: seq<nat> -> set<nat>)
    requires c !in rest
    ensures |Extend(rest + {c}, next)| == |Extend(rest, next)| + |next(c)|
  {
    var own := set d | d in next(c) :: c + [d];
    ContinuationsSize(c, next(c));
    assert Extend(rest + {c}, next) == Extend(rest, next) + own;
    forall e | e in Extend(rest, next) ensures e !in own {
      var c2, d2 :| c2 in rest && d2 in next(c2) && e == c2 + [d2];
      forall d | d in next(c) ensures c + [d] != e { SnocInjective(c2, d2, c, d); }
    }
  }

  lemma {:induction false} ExtendSize(prefixes: set<seq<nat>>, next: seq<nat> -> set<nat>, m: nat)
    requires forall c :: c in prefixes ==> |next(c)| == m
    ensures |Extend(prefixes, next)| == |prefixes| * m
    decreases |prefixes|
  {
    hide Extend;
    if prefixes == {} {
      ExtendOfNone(next);
    } else {
      var c :| c in prefixes;
      var rest := prefixes - {c};
      assert prefixes == rest + {c};
      ExtendSize(rest, next, m);
      ExtendSplit(c, rest, next);
      OneMore(|Extend(rest, next)|, |rest|, m);
    }
  }

  lemma ExtendOfNone(next: seq<nat> -> set<nat>)
    ensures Extend({}, next) == {}
  {
  }

  ghost function Union(index: set<nat>, family: nat -> set<seq<nat>>): set<seq<nat>> {
    set x, c | x in index && c in family(x) :: c
  }

  ghost predicate Apart(family: nat -> set<seq<nat>>, x: nat, y: nat) {
    family(x) !! family(y)
  }

  lemma UnionSplit(x: nat, rest: set<nat>, family: nat -> set<seq<nat>>)
    requires forall y :: y in rest ==> Apart(family, y, x)
    ensures |Union(rest + {x}, family)| == |Union(rest, family)| + |family(x)|
  {
    assert Union(rest + {x}, family) == Union(rest, family) + family(x);
    assert Union(rest, family) !! family(x) by {
      forall y, c | y in rest && c in family(y) ensures c !in family(x) {
        assert Apart(family, y, x);
      }
    }
  }

  lemma OneMore(total: int, n: int, m: int)
    requires total == n * m
    ensures total + m == (n + 1) * m
  {
  }

  lemma {:induction false} UnionSize(index: set<nat>, family: nat -> set<seq<nat>>, m: nat)
    requires forall x :: x in index ==> |family(x)| == m
    requires forall x, y :: x in index && y in index && x != y ==> Apart(family, x, y)
    ensures |Union(index, family)| == |index| * m
    decreases |index|
  {
    hide Apart, Union;
    if index == {} {
      UnionOfNone(family);
    } else {
      var x :| x in index;
      var rest := index - {x};
      assert index == rest + {x};
      UnionSize(rest, family, m);
      UnionSplit(x, rest, family);
      OneMore(|Union(rest, family)|, |rest|, m);
    }
  }

  lemma UnionOfNone(family: nat -> set<seq<nat>>)
    ensures Union({}, family) == {}
  {
  }

  // ---------- Choice sequences ----------

  /** All sequences of m draws for a full reservoir of k slots: draw j ranges over 0..k+j. */
  ghost function Choices(k: nat, m: nat): set<seq<nat>> {
    if m == 0 then {[]} else Extend(Choices(k, m - 1), _ => Below(k + m))
  }

  lemma ChoicesSnoc(k: nat, m: nat, c: seq<nat>, d: nat)
    ensures c + [d] in Choices(k, m + 1) <==> c in Choices(k, m) && d < k + m + 1
  {
    hide Choices, Extend, Below;
    ExtendSnoc(Choices(k, m), _ => Below(k + m + 1), c, d);
    ChoicesUnfold(k, m);
  }

  lemma ChoicesUnfold(k: nat, m: nat)
    ensures Choices(k, m + 1) == Extend(Choices(k, m), _ => Below(k + m + 1))
  {
  }

  lemma ExtendSnoc(prefixes: set<seq<nat>>, next: seq<nat> -> set<nat>, c: seq<nat>, d: nat)
    ensures c + [d] in Extend(prefixes, next) <==> c in prefixes && d in next(c)
  {
    if c + [d] in Extend(prefixes, next) {
      var p, e :| p in prefixes && e in next(p) && c + [d] == p + [e];
      SnocInjective(c, d, p, e);
    }
  }

  lemma ChoicesOfNone(k: nat, m: nat)
    ensures [] in Choices(k, m) <==> m == 0
    ensures Choices(k, 0) == {[]}
    ensures InRange(k, [])
  {
  }

  lemma InRangeSnoc(k: nat, c: seq<nat>, d: nat)
    ensures InRange(k, c + [d]) <==> InRange(k, c) && d <= k + |c|
  {
    if InRange(k, c + [d]) {
      assert (c + [d])[|c|] == d;
      assert forall j :: 0 <= j < |c| ==> (c + [d])[j] == c[j];
    }
  }

  /** The choice sequences are exactly the draw sequences a full reservoir can meet. */
  lemma {:induction false} ChoicesAreDraws(k: nat, m: nat, c: seq<nat>)
    ensures c in Choices(k, m) <==> |c| == m && InRange(k, c)
  {
    hide Choices, InRange;
    if c == [] {
      ChoicesOfNone(k, m);
    } else {
      var p, d := c[..|c| - 1], c[|c| - 1];
      assert c == p + [d];
      if m == 0 {
        ChoicesOfNone(k, m);
      } else {
        ChoicesAreDraws(k, m - 1, p);
        ChoicesSnoc(k, m - 1, p, d);
        InRangeSnoc(k, p, d);
      }
    }
  }

  lemma Rearrange(a: int, b: int, c: int)
    ensures (a * b) * c == b * (a * c)
  {
  }

  /** There are n!/k! choice sequences in all. */
  lemma {:induction false} ChoicesTotal(k: nat, m: nat)
    ensures |Choices(k, m)| * Factorial(k) == Factorial(k + m)
  {
    hide *;
    if m == 0 {
      ChoicesOfNone(k, 0);
    } else {
      ChoicesTotal(k, m - 1);
      ChoicesGrow(k, m);
      Rearrange(|Choices(k, m - 1)|, k + m, Factorial(k));
      FactorialStep(k + m);
    }
  }

  lemma ChoicesGrow(k: nat, m: nat)
    requires m > 0
    ensures |Choices(k, m)| == |Choices(k, m - 1)| * (k + m)
  {
    ExtendSize(Choices(k, m - 1), _ => Below(k + m), k + m);
  }

  /** The set of arrivals left in the reservoir by the draws `c`. */
  ghost function Kept(k: nat, c: seq<nat>): set<nat> {
    Elements(Survivors(k, k + |c|, c))
  }

  /** The choice sequences that leave exactly the arrivals in `arrivals`. */
  ghost function Leaving(k: nat, m: nat, arrivals: set<nat>): set<seq<nat>> {
    set c | c in Choices(k, m) && Kept(k, c) == arrivals
  }

  /** The choice sequences under which arrival p is in the final sample. */
  ghost function Surviving(k: nat, m: nat, p: nat): set<seq<nat>> {
    set c | c in Choices(k, m) && p in Kept(k, c)
  }

  lemma {:induction false} DistinctSize(s: seq<nat>)
    requires forall i, j :: 0 <= i < j < |s| ==> s[i] != s[j]
    ensures |Elements(s)| == |s|
  {
    if s != [] {
      var t := s[..|s| - 1];
      DistinctSize(t);
      assert s == t + [s[|s| - 1]];
      assert Elements(s) == Elements(t) + {s[|s| - 1]};
    }
  }

  lemma KeptBasics(k: nat, c: seq<nat>)
    ensures |Kept(k, c)| == k && Kept(k, c) <= Below(k + |c|)
  {
    SurvivorsDistinct(k, k + |c|, c);
    DistinctSize(Survivors(k, k + |c|, c));
  }

  lemma KeptStep(k: nat, c: seq<nat>, d: nat)
    ensures var s := Survivors(k, k + |c|, c);
      Kept(k, c + [d]) == if d < k then Kept(k, c) - {s[d]} + {k + |c|} else Kept(k, c)
  {
    var n := k + |c|;
    SurvivorsStep(k, n + 1, c + [d]);
    assert (c + [d])[..|c|] == c;
    SurvivorsDistinct(k, n, c);
    var s, t := Survivors(k, n, c), Survivors(k, n + 1, c + [d]);
    hide Survivors;
    if d < k {
      assert t == s[d := n];
      ReplaceElement(s, d, n);
    }
  }

  lemma ReplaceElement(s: seq<nat>, d: nat, n: nat)
    requires d < |s| && forall i, j :: 0 <= i < j < |s| ==> s[i] != s[j]
    requires n !in s
    ensures Elements(s[d := n]) == Elements(s) - {s[d]} + {n}
  {
    var t := s[d := n];
    forall x | x in Elements(s) - {s[d]} + {n} ensures x in t {
      if x == n {
        assert t[d] == x;
      } else {
        var i :| 0 <= i < |s| && s[i] == x;
        assert t[i] == x;
      }
    }
  }

  // ---------- Every subset is equally likely ----------

  /** The prefixes that some draw can turn into a choice sequence leaving `arrivals`, newest arrival p. */
  ghost function Missing(k: nat, m: nat, others: set<nat>): set<seq<nat>> {
    set c | c in Choices(k, m) && others < Kept(k, c)
  }

  /** The draws that evict from c's reservoir an arrival outside `others`. */
  ghost function Evicting(k: nat, c: seq<nat>, others: set<nat>): set<nat> {
    set d | d in Below(k) && Survivors(k, k + |c|, c)[d] !in others
  }

  lemma OnlyIndexOutside(s: seq<nat>, others: set<nat>) returns (d: nat)
    requires forall i, j :: 0 <= i < j < |s| ==> s[i] != s[j]
    requires others < Elements(s) && |others| + 1 == |s|
    ensures d < |s| && s[d] !in others
    ensures forall e :: 0 <= e < |s| && s[e] !in others ==> e == d
  {
    DistinctSize(s);
    var extra := Elements(s) - others;
    assert |extra| == 1;
    var x :| x in extra;
    SingletonOf(extra, x);
    d :| 0 <= d < |s| && s[d] == x;
    forall e | 0 <= e < |s| && s[e] !in others ensures e == d {
      assert s[e] in extra;
    }
  }

  lemma EvictingOne(k: nat, c: seq<nat>, others: set<nat>)
    requires others < Kept(k, c) && |others| == k - 1
    ensures |Evicting(k, c, others)| == 1
  {
    SurvivorsDistinct(k, k + |c|, c);
    var d := OnlyIndexOutside(Survivors(k, k + |c|, c), others);
    assert Evicting(k, c, others) == {d};
  }

  lemma SingletonOf(s: set<nat>, x: nat)
    requires |s| == 1 && x in s
    ensures s == {x}
  {
    assert |s - {x}| == 0;
  }

  /** Filtering extended sequences is extending the filtered prefixes. */
  lemma ExtendFilter(all: set<seq<nat>>, next: seq<nat> -> set<nat>, result: set<seq<nat>>,
                     some: set<seq<nat>>, chosen: seq<nat> -> set<nat>)
    requires forall c, d :: c in all && d in next(c) ==>
      (c + [d] in result <==> c in some && d in chosen(c))
    requires result <= Extend(all, next)
    requires some <= all && forall c :: c in some ==> chosen(c) <= next(c)
    ensures result == Extend(some, chosen)
  {
  }

  /** Counting choice sequences prefix by prefix. */
  lemma CountByPrefix(k: nat, m: nat, result: set<seq<nat>>,
                      some: set<seq<nat>>, chosen: seq<nat> -> set<nat>, each: nat)
    requires forall c, d :: c in Choices(k, m) && d in Below(k + m + 1) ==>
      (c + [d] in result <==> c in some && d in chosen(c))
    requires result <= Choices(k, m + 1) && some <= Choices(k, m)
    requires forall c :: c in some ==> chosen(c) <= Below(k + m + 1) && |chosen(c)| == each
    ensures |result| == |some| * each
  {
    var all := Choices(k, m);
    ChoicesUnfold(k, m);
    hide Choices, Extend;
    ExtendFilter(all, _ => Below(k + m + 1), result, some, chosen);
    ExtendSize(some, chosen, each);
  }

  lemma Snoc(k: nat, m: nat, c: seq<nat>, d: nat)
    requires c in Choices(k, m) && d in Below(k + m + 1)
    ensures |c| == m && c + [d] in Choices(k, m + 1)
  {
    ChoicesAreDraws(k, m, c);
  }

  lemma LeavingNewestAt(k: nat, m: nat, arrivals: set<nat>, c: seq<nat>, d: nat)
    requires |arrivals| == k && k + m in arrivals
    requires c in Choices(k, m) && d in Below(k + m + 1)
    ensures var others := arrivals - {k + m};
      c + [d] in Leaving(k, m + 1, arrivals) <==> c in Missing(k, m, others) && d in Evicting(k, c, others)
  {
    hide Choices;
    Snoc(k, m, c, d);
    NewestLeft(k, c, d, arrivals);
  }

  /** With the newest arrival in the sample, exactly one draw completes each fitting prefix. */
  lemma LeavingNewest(k: nat, m: nat, arrivals: set<nat>)
    requires |arrivals| == k && k + m in arrivals
    ensures |Leaving(k, m + 1, arrivals)| == |Missing(k, m, arrivals - {k + m})|
  {
    var others := arrivals - {k + m};
    var some, chosen := Missing(k, m, others), (c: seq<nat>) => Evicting(k, c, others);
    forall c, d | c in Choices(k, m) && d in Below(k + m + 1)
      ensures c + [d] in Leaving(k, m + 1, arrivals) <==> c in some && d in chosen(c)
    {
      LeavingNewestAt(k, m, arrivals, c, d);
    }
    forall c | c in some ensures chosen(c) <= Below(k + m + 1) && |chosen(c)| == 1 {
      EvictingOne(k, c, others);
    }
    hide Survivors, Kept, Choices, Evicting;
    CountByPrefix(k, m, Leaving(k, m + 1, arrivals), some, chosen, 1);
  }

  lemma NewestLeft(k: nat, c: seq<nat>, d: nat, arrivals: set<nat>)
    requires |arrivals| == k && k + |c| in arrivals
    ensures Kept(k, c + [d]) == arrivals
       <==> arrivals - {k + |c|} < Kept(k, c) && d in Evicting(k, c, arrivals - {k + |c|})
  {
    var s := Survivors(k, k + |c|, c);
    KeptBasics(k, c);
    KeptStep(k, c, d);
    assert d < k ==> s[d] in Kept(k, c);
    hide Kept, Survivors, Below;
    if d < k {
      ReplaceOne(Kept(k, c), s[d], k + |c|, arrivals);
    }
  }

  lemma ReplaceOne(kept: set<nat>, x: nat, p: nat, arrivals: set<nat>)
    requires |kept| == |arrivals| && x in kept && p !in kept && p in arrivals
    ensures kept - {x} + {p} == arrivals <==> arrivals - {p} < kept && x !in arrivals - {p}
  {
    var others := arrivals - {p};
    if others < kept && x !in others {
      assert |kept - others| == 1;
      SingletonOf(kept - others, x);
    }
  }

  /** The newest arrival stays out of the sample exactly when the draw misses the slots. */
  lemma LeavingOlder(k: nat, m: nat, arrivals: set<nat>)
    requires k + m !in arrivals
    ensures |Leaving(k, m + 1, arrivals)| == |Leaving(k, m, arrivals)| * (m + 1)
  {
    hide *;
    var missing := Below(k + m + 1) - Below(k);
    assert Below(k) <= Below(k + m + 1);
    forall c, d | c in Choices(k, m) && d in Below(k + m + 1)
      ensures c + [d] in Leaving(k, m + 1, arrivals) <==> c in Leaving(k, m, arrivals) && d in missing
    {
      LeavingOlderAt(k, m, arrivals, c, d);
    }
    LeavingAreChoices(k, m, arrivals);
    LeavingAreChoices(k, m + 1, arrivals);
    CountByPrefix(k, m, Leaving(k, m + 1, arrivals), Leaving(k, m, arrivals), _ => missing, m + 1);
  }

  lemma LeavingAreChoices(k: nat, m: nat, arrivals: set<nat>)
    ensures Leaving(k, m, arrivals) <= Choices(k, m)
  {
  }

  lemma LeavingOlderAt(k: nat, m: nat, arrivals: set<nat>, c: seq<nat>, d: nat)
    requires k + m !in arrivals && c in Choices(k, m) && d in Below(k + m + 1)
    ensures c + [d] in Leaving(k, m + 1, arrivals)
       <==> c in Leaving(k, m, arrivals) && d in Below(k + m + 1) - Below(k)
  {
    hide Choices, Survivors, Kept, Below;
    Snoc(k, m, c, d);
    KeptBasics(k, c);
    KeptStep(k, c, d);
  }

  lemma OneExtra(k: nat, c: seq<nat>, others: set<nat>) returns (x: nat)
    requires |others| + 1 == k && others < Kept(k, c)
    ensures x < k + |c| && x !in others && Kept(k, c) == others + {x}
  {
    KeptBasics(k, c);
    hide Kept;
    assert |Kept(k, c) - others| == 1;
    x :| x in Kept(k, c) - others;
    SingletonOf(Kept(k, c) - others, x);
    assert x in Below(k + |c|);
  }

  /** Fitting prefixes are grouped by the one arrival they hold besides `others`. */
  lemma MissingByExtra(k: nat, m: nat, others: set<nat>, family: nat -> set<seq<nat>>)
    requires |others| + 1 == k && others <= Below(k + m)
    requires forall x :: family(x) == Leaving(k, m, others + {x})
    ensures Missing(k, m, others) == Union(Below(k + m) - others, family)
  {
    hide Kept, Choices;
    var index := Below(k + m) - others;
    forall c | c in Missing(k, m, others) ensures c in Union(index, family) {
      ChoicesAreDraws(k, m, c);
      var x := OneExtra(k, c, others);
      assert x in index && c in family(x);
    }
    forall x, c | x in index && c in family(x) ensures c in Missing(k, m, others) {
      assert x in others + {x} && x !in others;
    }
  }

  lemma FamilyApart(k: nat, m: nat, others: set<nat>, family: nat -> set<seq<nat>>, x: nat, y: nat)
    requires x !in others && y !in others && x != y
    requires forall z :: family(z) == Leaving(k, m, others + {z})
    ensures Apart(family, x, y)
  {
  }

  lemma MissingSize(k: nat, m: nat, others: set<nat>, each: nat)
    requires |others| + 1 == k && others <= Below(k + m)
    requires forall x :: x in Below(k + m) - others ==> |Leaving(k, m, others + {x})| == each
    ensures |Missing(k, m, others)| == |Below(k + m) - others| * each
  {
    hide *;
    var index, family := Below(k + m) - others, (x: nat) => Leaving(k, m, others + {x});
    MissingByExtra(k, m, others, family);
    forall x, y | x in index && y in index && x != y ensures Apart(family, x, y) {
      FamilyApart(k, m, others, family, x, y);
    }
    UnionSize(index, family, each);
  }

  lemma StartKept(k: nat)
    ensures Choices(k, 0) == {[]} && Kept(k, []) == Below(k)
  {
    KeptBasics(k, []);
    hide Kept, Below;
    SubsetIsAll(Kept(k, []), Below(k));
  }

  lemma LeavingNothing(k: nat, arrivals: set<nat>)
    requires |arrivals| == k && arrivals <= Below(k)
    ensures |Leaving(k, 0, arrivals)| == Factorial(0)
  {
    StartKept(k);
    hide Kept, Below;
    SubsetIsAll(arrivals, Below(k));
    assert Leaving(k, 0, arrivals) == {[]};
  }

  /** After n = k+m updates every k-subset of the arrivals is left by exactly m! choice sequences. */
  lemma {:induction false} SubsetsEquallyLikely(k: nat, m: nat, arrivals: set<nat>)
    requires |arrivals| == k && arrivals <= Below(k + m)
    ensures |Leaving(k, m, arrivals)| == Factorial(m)
    decreases m
  {
    hide *;
    if m == 0 {
      LeavingNothing(k, arrivals);
    } else if k + m - 1 in arrivals {
      var others := arrivals - {k + m - 1};
      assert others <= Below(k + m - 1);
      forall x | x in Below(k + m - 1) - others
        ensures |Leaving(k, m - 1, others + {x})| == Factorial(m - 1)
      {
        SubsetsEquallyLikely(k, m - 1, others + {x});
      }
      MissingSize(k, m - 1, others, Factorial(m - 1));
      assert |Below(k + m - 1) - others| == m;
      LeavingNewest(k, m - 1, arrivals);
      FactorialStep(m);
    } else {
      assert arrivals <= Below(k + m - 1);
      SubsetsEquallyLikely(k, m - 1, arrivals);
      LeavingOlder(k, m - 1, arrivals);
      FactorialStep(m);
    }
  }

  lemma FactorialStep(m: nat)
    requires m > 0
    ensures Factorial(m) == m * Factorial(m - 1) == Factorial(m - 1) * m
  {
  }

  // ---------- Every arrival survives with probability k/n ----------

  lemma SurvivingNewestAt(k: nat, m: nat, c: seq<nat>, d: nat)
    requires c in Choices(k, m) && d in Below(k + m + 1)
    ensures c + [d] in Surviving(k, m + 1, k + m) <==> d in Below(k)
  {
    hide Choices, Survivors, Kept, Below;
    Snoc(k, m, c, d);
    KeptBasics(k, c);
    KeptStep(k, c, d);
    assert k + m !in Kept(k, c);
  }

  lemma SurvivingNewest(k: nat, m: nat)
    ensures |Surviving(k, m + 1, k + m)| == |Choices(k, m)| * k
  {
    hide Survivors, Kept, Choices;
    forall c, d | c in Choices(k, m) && d in Below(k + m + 1)
      ensures c + [d] in Surviving(k, m + 1, k + m) <==> d in Below(k)
    {
      SurvivingNewestAt(k, m, c, d);
    }
    CountByPrefix(k, m, Surviving(k, m + 1, k + m), Choices(k, m), _ => Below(k), k);
  }

  /** The draws that do not evict arrival p. */
  ghost function Sparing(k: nat, c: seq<nat>, p: nat): set<nat> {
    var s := Survivors(k, k + |c|, c);
    set d | d in Below(k + |c| + 1) && !(d < k && s[d] == p)
  }

  lemma SparingSize(k: nat, c: seq<nat>, p: nat)
    requires p in Kept(k, c)
    ensures |Sparing(k, c, p)| == k + |c| && Sparing(k, c, p) <= Below(k + |c| + 1)
  {
    SurvivorsDistinct(k, k + |c|, c);
    var s := Survivors(k, k + |c|, c);
    var i :| 0 <= i < k && s[i] == p;
    assert Sparing(k, c, p) == Below(k + |c| + 1) - {i};
  }

  lemma SurvivingOlderAt(k: nat, m: nat, p: nat, c: seq<nat>, d: nat)
    requires p < k + m && c in Choices(k, m) && d in Below(k + m + 1)
    ensures c + [d] in Surviving(k, m + 1, p) <==> c in Surviving(k, m, p) && d in Sparing(k, c, p)
  {
    hide Choices, Survivors, Kept, Below;
    Snoc(k, m, c, d);
    KeptStep(k, c, d);
  }

  lemma SurvivingOlder(k: nat, m: nat, p: nat)
    requires p < k + m
    ensures |Surviving(k, m + 1, p)| == |Surviving(k, m, p)| * (k + m)
  {
    hide Survivors, Kept, Choices, Sparing;
    var chosen := (c: seq<nat>) => Sparing(k, c, p);
    forall c, d | c in Choices(k, m) && d in Below(k + m + 1)
      ensures c + [d] in Surviving(k, m + 1, p) <==> c in Surviving(k, m, p) && d in chosen(c)
    {
      SurvivingOlderAt(k, m, p, c, d);
    }
    forall c | c in Surviving(k, m, p)
      ensures chosen(c) <= Below(k + m + 1) && |chosen(c)| == k + m
    {
      ChoicesAreDraws(k, m, c);
      SparingSize(k, c, p);
    }
    CountByPrefix(k, m, Surviving(k, m + 1, p), Surviving(k, m, p), chosen, k + m);
  }

  /** Each arrival is in the sample for exactly k of every n choice sequences. */
  lemma {:induction false} SurvivalRate(k: nat, m: nat, p: nat)
    requires p < k + m
    ensures |Surviving(k, m, p)| * (k + m) == k * |Choices(k, m)|
  {
    hide *;
    if m == 0 {
      SurvivingStart(k, p);
    } else {
      ChoicesGrow(k, m);
      if p == k + m - 1 {
        SurvivingNewest(k, m - 1);
        NewestRate(|Surviving(k, m, p)|, |Choices(k, m - 1)|, |Choices(k, m)|, k, k + m);
      } else {
        SurvivalRate(k, m - 1, p);
        SurvivingOlder(k, m - 1, p);
        OlderRate(|Surviving(k, m - 1, p)|, |Surviving(k, m, p)|,
                  |Choices(k, m - 1)|, |Choices(k, m)|, k, k + m);
      }
    }
  }

  lemma SurvivingStart(k: nat, p: nat)
    requires p < k
    ensures |Surviving(k, 0, p)| * k == k * |Choices(k, 0)|
  {
    StartKept(k);
    hide Kept;
    assert Surviving(k, 0, p) == {[]};
  }

  lemma NewestRate(surviving: int, before: int, choices: int, k: int, n: int)
    requires surviving == before * k && choices == before * n
    ensures surviving * n == k * choices
  {
  }

  lemma OlderRate(older: int, surviving: int, before: int, choices: int, k: int, n: int)
    requires older * (n - 1) == k * before
    requires surviving == older * (n - 1) && choices == before * n
    ensures surviving * n == k * choices
  {
  }

  // ---------- The object ----------

  lemma DrawsAreOneChoice(r: UniformSample)
    requires r.Valid() && r.count >= r.values.Length
    ensures r.draws in Choices(r.values.Length, r.count - r.values.Length)
    ensures r.values.Length + |r.draws| == r.count
  {
    hide Choices, Run;
    ChoicesAreDraws(r.values.Length, r.count - r.values.Length, r.draws);
  }

  /** The generator's draws so far are one of the choice sequences, and the slots hold the arrivals it leaves. */
  lemma ReservoirIsOneChoice(r: UniformSample)
    requires r.Valid() && r.count >= r.values.Length
    ensures r.draws in Choices(r.values.Length, r.count - r.values.Length)
    ensures var picks := Survivors(r.values.Length, r.count, r.draws);
      && Elements(picks) == Kept(r.values.Length, r.draws)
      && forall i :: 0 <= i < |picks| ==> picks[i] < |r.history| && r.values[i] == r.history[picks[i]]
  {
    hide Choices, Elements, Survivors, InRange;
    DrawsAreOneChoice(r);
    SlotsHoldSurvivors(r.values.Length, 0, r.history, r.draws);
    assert forall i :: 0 <= i < r.values.Length ==> r.values[i] == r.values[..][i];
  }
}

/** The laws of exp that the metrics rely on, for any function that obeys them. */
module Exponential {
  import opened Algebra

  ghost predicate Adds(E: real -> real, a: real, b: real) {
    E(a + b) == Product(E(a), E(b))
  }

  ghost predicate Grows(E: real -> real, a: real, b: real) {
    a < b ==> E(a) < E(b)
  }

  /** E is positive, strictly increasing, and turns sums into products. */
  ghost predicate IsExp(E: real -> real) {
    && E(0.0) == 1.0
    && (forall x :: E(x) > 0.0)
    && (forall a, b :: Adds(E, a, b))
    && (forall a, b :: Grows(E, a, b))
  }

  function Power(x: real, n: nat): real {
    if n == 0 then 1.0 else Product(Power(x, n - 1), x)
  }

  lemma {:induction false} PowerAdds(x: real, m: nat, n: nat)
    ensures Power(x, m + n) == Product(Power(x, m), Power(x, n))
  {
    if n > 0 {
      PowerAdds(x, m, n - 1);
      ProductAssociates(Power(x, m), Power(x, n - 1), x);
    }
  }

  lemma ProductAssociates(a: real, b: real, c: real)
    ensures Product(Product(a, b), c) == Product(a, Product(b, c))
  {
  }

  lemma {:induction false} PowerOfPower(x: real, m: nat, n: nat)
    ensures Power(Power(x, m), n) == Power(x, m * n)
  {
    if n > 0 {
      PowerOfPower(x, m, n - 1);
      assert m * (n - 1) + m == m * n;
      PowerAdds(x, m * (n - 1), m);
    } else {
      assert m * n == 0;
    }
  }

  lemma {:induction false} PowerOrder(x: real, y: real, n: nat)
    requires 0.0 <= x <= y
    ensures 0.0 <= Power(x, n) <= Power(y, n)
  {
    if n > 0 {
      PowerOrder(x, y, n - 1);
      ScaleMonotone(0.0, Power(x, n - 1), x);
      ScaleMonotone(Power(x, n - 1), Power(y, n - 1), x);
      ScaleMonotone(x, y, Power(y, n - 1));
    }
  }

  /** exp(n*x) is the n-th power of exp(x). */
  lemma {:induction false} ExpOfMultiple(E: real -> real, x: real, n: nat, y: real)
    requires IsExp(E) && y == n as real * x
    ensures E(y) == Power(E(x), n)
  {
    if n == 0 {
      assert y == 0.0;
    } else {
      ExpOfMultiple(E, x, n - 1, y - x);
      assert Adds(E, y - x, x);
      assert y - x + x == y;
    }
  }
}

/** Small facts of real arithmetic and of multisets that the solver needs spelled out. */
module Algebra {

  function Product(a: real, b: real): real { a * b }

  function Square(x: real): real { Product(x, x) }

  lemma ProductNonNegative(a: real, b: real)
    requires a >= 0.0 && b >= 0.0
    ensures a * b >= 0.0
  {
  }

  lemma ProductPositive(a: real, b: real)
    requires a > 0.0 && b > 0.0
    ensures Product(a, b) > 0.0
  {
  }

  lemma ScaleMonotone(a: real, b: real, c: real)
    requires a <= b && c >= 0.0
    ensures a * c <= b * c && c * a <= c * b
  {
    ProductNonNegative(b - a, c);
  }

  lemma ScaleStrict(a: real, b: real, c: real)
    requires a < b && c > 0.0
    ensures a * c < b * c
  {
    assert (b - a) * c > 0.0;
  }

  /** Scaling by a positive factor preserves and reflects order and equality. */
  lemma ScaleOrder(a: real, b: real, c: real)
    requires c > 0.0
    ensures a < b <==> a * c < b * c
    ensures a == b <==> a * c == b * c
  {
    if a < b {
      ScaleStrict(a, b, c);
    } else if b < a {
      ScaleStrict(b, a, c);
    }
  }

  lemma QuotientBounds(sum: real, n: real, lo: real, hi: real)
    requires n > 0.0 && lo * n <= sum <= hi * n
    ensures lo <= sum / n <= hi
  {
  }

  lemma SquarePositive(x: real)
    ensures Square(x) >= 0.0
    ensures Square(x) == 0.0 <==> x == 0.0
  {
    if x != 0.0 {
      hide Square;
      SquareOfOpposite(x);
      SquareOfPositive(if x > 0.0 then x else -x);
    }
  }

  lemma SquareOfPositive(x: real)
    requires x > 0.0
    ensures Square(x) > 0.0
  {
    ProductPositive(x, x);
  }

  lemma SquareOfOpposite(x: real)
    ensures Square(x) == Square(-x)
  {
  }

  lemma SquareOfDifference(x: real, c: real)
    ensures Square(x - c) == x * x - 2.0 * (c * x) + Square(c)
  {
  }

  /** Taking one known element out of two equal multisets leaves them equal. */
  lemma RemoveFromBoth<T>(x: T, a: seq<T>, b: seq<T>, i: nat)
    requires i < |b| && b[i] == x && multiset([x] + a) == multiset(b)
    ensures multiset(a) == multiset(b[..i] + b[i + 1..])
  {
    assert b == b[..i] + [x] + b[i + 1..];
    assert multiset(b) == multiset(b[..i] + b[i + 1..]) + multiset{x};
    assert multiset([x] + a) == multiset(a) + multiset{x};
    assert multiset(a) == multiset(b) - multiset{x};
  }
}

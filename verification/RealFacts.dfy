/** Facts about products of reals that the arithmetic modules share. */
module RealFacts {
  lemma Quotient(a: real, b: real)
    requires a > 0.0 && b > 0.0
    ensures a / b > 0.0 && (a / b) * b == a && (a / b > 1.0 ==> b < a)
  {
  }

  lemma Monotone(a: real, b: real, k: real)
    requires a <= b && k >= 0.0
    ensures a * k <= b * k
  {
  }

  lemma Positive(a: real, b: real)
    requires a > 0.0 && b > 0.0
    ensures a * b > 0.0
  {
  }

  lemma Cancel(x: real, y: real, k: real)
    requires k > 0.0 && x * k <= y * k
    ensures x <= y
  {
    if x > y {
      Positive(x - y, k);
    }
  }

  function Product(a: real, b: real): real {
    a * b
  }

  lemma ProductPositive(a: real, b: real)
    requires a > 0.0 && b > 0.0
    ensures Product(a, b) > 0.0
  {
  }

  lemma SquareOfDifference(x: real, y: real)
    ensures Product(y - x, y - x) == x * x + y * y - 2.0 * (x * y)
  {
  }

  lemma TwiceProduct(x: real, y: real)
    requires x < y
    ensures 2.0 * (x * y) < x * x + y * y
  {
    ProductPositive(y - x, y - x);
    SquareOfDifference(x, y);
  }

  lemma SquareBound(x: real, p: real)
    requires -p <= x <= p
    ensures x * x <= p * p
  {
    Monotone(-p, x, p - x);
    assert x * (p - x) - (-p) * (p - x) == p * p - x * x;
  }
}

/** Facts about products of reals, kept apart so that no other proof meets a nonlinear step. */
module RealArithmetic {

  lemma PositiveProduct(p: real, d: real)
    requires p > 0.0 && d > 0.0
    ensures p * d > 0.0
  {
  }

  lemma ScaledBound(k: real, x: real, y: real)
    requires k >= 0.0 && x <= y
    ensures k * x <= k * y
  {
  }

  lemma NonNegativeProduct(x: real, y: real)
    requires x >= 0.0 && y >= 0.0
    ensures x * y >= 0.0
  {
  }

  function Abs(x: real): real {
    if x < 0.0 then -x else x
  }

  function Larger(x: real, y: real): real { if x < y then y else x }

  function Smaller(x: real, y: real): real { if x < y then x else y }

  lemma SquareMonotone(a: real, b: real)
    requires Abs(a) <= Abs(b)
    ensures a * a <= b * b
  {
    ScaledBound(Abs(a), Abs(a), Abs(b));
    ScaledBound(Abs(b), Abs(a), Abs(b));
    assert Abs(a) * Abs(a) == a * a && Abs(b) * Abs(b) == b * b;
  }

  lemma QuotientAtMost(num: real, den: real, hi: real, above: real)
    requires den > 0.0 && above == hi * den && num <= above
    ensures num / den <= hi
  {
    var q := num / den;
    assert q * den == num;
    if hi < q {
      PositiveProduct(den, q - hi);
    }
  }
}

/** Real vectors: the inner product, its linearity, and the two norm inequalities.
    Norms are never taken: a vector is "within r" when its square is at most r * r. */
module Vectors {
  import opened RealArithmetic

  type Vec = seq<real>

  function SumOfProducts(a: Vec, b: Vec): real
    requires |a| == |b|
  {
    if a == [] then 0.0 else a[0] * b[0] + SumOfProducts(a[1..], b[1..])
  }

  function Dot(a: Vec, b: Vec): real
    requires |a| == |b|
  {
    SumOfProducts(a, b)
  }

  /** |a|^2. */
  function Square(a: Vec): real {
    Dot(a, a)
  }

  function Add(a: Vec, b: Vec): (c: Vec)
    requires |a| == |b|
    ensures |c| == |a|
  {
    seq(|a|, i requires 0 <= i < |a| => a[i] + b[i])
  }

  function Sub(a: Vec, b: Vec): (c: Vec)
    requires |a| == |b|
    ensures |c| == |a|
  {
    seq(|a|, i requires 0 <= i < |a| => a[i] - b[i])
  }

  function Scale(r: real, a: Vec): (c: Vec)
    ensures |c| == |a|
  {
    seq(|a|, i requires 0 <= i < |a| => r * a[i])
  }

  function Zeros(n: nat): (z: Vec) {
    seq(n, _ => 0.0)
  }

  ghost predicate Within(a: Vec, r: real) {
    0.0 <= r && Square(a) <= r * r
  }

  lemma DotUnfold(a: Vec, b: Vec)
    requires |a| == |b| && a != []
    ensures Dot(a, b) == a[0] * b[0] + Dot(a[1..], b[1..])
  {
  }

  lemma {:induction false} DotSymmetric(a: Vec, b: Vec)
    requires |a| == |b|
    ensures Dot(a, b) == Dot(b, a)
  {
    if a != [] {
      DotSymmetric(a[1..], b[1..]);
    }
  }

  lemma {:induction false} DotAdd(a: Vec, b: Vec, c: Vec)
    requires |a| == |b| == |c|
    ensures Dot(Add(a, b), c) == Dot(a, c) + Dot(b, c)
  {
    if a != [] {
      assert Add(a, b)[1..] == Add(a[1..], b[1..]);
      DotAdd(a[1..], b[1..], c[1..]);
    }
  }

  lemma {:induction false} DotSub(a: Vec, b: Vec, c: Vec)
    requires |a| == |b| == |c|
    ensures Dot(Sub(a, b), c) == Dot(a, c) - Dot(b, c)
  {
    if a != [] {
      assert Sub(a, b)[1..] == Sub(a[1..], b[1..]);
      DotSub(a[1..], b[1..], c[1..]);
    }
  }

  lemma ScaleTail(r: real, a: Vec)
    requires a != []
    ensures Scale(r, a)[1..] == Scale(r, a[1..])
  {
    var s, t := Scale(r, a)[1..], Scale(r, a[1..]);
    forall i | 0 <= i < |a| - 1
      ensures s[i] == t[i]
    {
      assert a[1..][i] == a[i + 1];
    }
  }

  lemma {:induction false} DotScale(r: real, a: Vec, c: Vec)
    requires |a| == |c|
    ensures Dot(Scale(r, a), c) == r * Dot(a, c)
  {
    if a != [] {
      ScaleTail(r, a);
      DotScale(r, a[1..], c[1..]);
    }
  }

  lemma {:induction false} DotConcat(a: Vec, b: Vec, c: Vec, d: Vec)
    requires |a| == |c| && |b| == |d|
    ensures Dot(a + b, c + d) == Dot(a, c) + Dot(b, d)
  {
    if a == [] {
      assert a + b == b && c + d == d;
    } else {
      assert (a + b)[1..] == a[1..] + b && (c + d)[1..] == c[1..] + d;
      DotConcat(a[1..], b, c[1..], d);
    }
  }

  lemma SquareConcat(a: Vec, b: Vec)
    ensures Square(a + b) == Square(a) + Square(b)
  {
    DotConcat(a, b, a, b);
  }

  lemma SquareScaled(r: real, a: Vec)
    ensures Square(Scale(r, a)) == (r * r) * Square(a)
  {
    DotOfScaled(r, a, r, a);
  }

  lemma {:induction false} DotNonNegative(a: Vec)
    ensures Dot(a, a) >= 0.0
  {
    if a != [] {
      DotNonNegative(a[1..]);
    }
  }

  lemma {:induction false} DotOfNull(a: Vec, b: Vec)
    requires |a| == |b| && Dot(a, a) <= 0.0
    ensures Dot(a, b) == 0.0
  {
    if a != [] {
      DotNonNegative(a[1..]);
      assert a[0] != 0.0 ==> a[0] * a[0] > 0.0;
      DotOfNull(a[1..], b[1..]);
    }
  }

  lemma SquareOfSum(a: Vec, b: Vec)
    requires |a| == |b|
    ensures Square(Add(a, b)) == Square(a) + 2.0 * Dot(a, b) + Square(b)
  {
    DotAdd(a, b, Add(a, b));
    DotSymmetric(a, Add(a, b));
    DotSymmetric(b, Add(a, b));
    DotAdd(a, b, a);
    DotAdd(a, b, b);
    DotSymmetric(a, b);
  }

  /** A common factor may be taken out of either side of an inner product. */
  lemma ScaleEitherSide(c: real, a: Vec, y: Vec, x: Vec, b: Vec)
    requires |a| == |y| && |x| == |b| && Dot(a, y) == Dot(x, b)
    ensures Dot(Scale(c, a), y) == Dot(x, Scale(c, b))
  {
    hide *;
    DotScale(c, a, y);
    DotScaleRight(x, c, b);
  }

  /** The square of x a + y b, from the three inner products of a and b. */
  function Quadratic(x: real, aa: real, y: real, ab: real, bb: real): real {
    x * x * aa + 2.0 * (x * y) * ab + y * y * bb
  }

  lemma SquareOfCombination(x: real, a: Vec, y: real, b: Vec)
    requires |a| == |b|
    ensures Square(Add(Scale(x, a), Scale(y, b))) == Quadratic(x, Square(a), y, Dot(a, b), Square(b))
  {
    SquareOfSum(Scale(x, a), Scale(y, b));
    DotOfScaled(x, a, x, a);
    DotOfScaled(x, a, y, b);
    DotOfScaled(y, b, y, b);
  }

  lemma {:induction false} DotScaleRight(a: Vec, y: real, b: Vec)
    requires |a| == |b|
    ensures Dot(a, Scale(y, b)) == y * Dot(a, b)
  {
    if a != [] {
      ScaleTail(y, b);
      DotScaleRight(a[1..], y, b[1..]);
    }
  }

  lemma DotOfScaled(x: real, a: Vec, y: real, b: Vec)
    requires |a| == |b|
    ensures Dot(Scale(x, a), Scale(y, b)) == (x * y) * Dot(a, b)
  {
    hide *;
    DotScale(x, a, Scale(y, b));
    DotScaleRight(a, y, b);
  }

  /** Cauchy-Schwarz, without square roots. */
  lemma CauchySchwarzSquared(a: Vec, b: Vec)
    requires |a| == |b|
    ensures Dot(a, b) * Dot(a, b) <= Square(a) * Square(b)
  {
    var aa, ab, bb := Dot(a, a), Dot(a, b), Dot(b, b);
    DotNonNegative(b);
    if bb == 0.0 {
      DotOfNull(b, a);
      DotSymmetric(a, b);
    } else {
      DotNonNegative(Add(Scale(bb, a), Scale(-ab, b)));
      SquareOfCombination(bb, a, -ab, b);
      hide Dot;
    }
  }

  lemma CauchySchwarz(a: Vec, b: Vec, r: real, s: real)
    requires |a| == |b| && Within(a, r) && Within(b, s)
    ensures Dot(a, b) <= r * s
  {
    hide Dot;
    CauchySchwarzSquared(a, b);
    DotNonNegative(a);
    DotNonNegative(b);
    RootBound(Dot(a, a), Dot(a, b), Dot(b, b), r, s);
  }

  lemma RootBound(aa: real, ab: real, bb: real, r: real, s: real)
    requires 0.0 <= aa <= r * r && 0.0 <= bb <= s * s && r >= 0.0 && s >= 0.0 && ab * ab <= aa * bb
    ensures ab <= r * s
  {
    var p := r * s;
    NonNegativeProduct(r, s);
    ScaledBound(bb, aa, r * r);
    ScaledBound(r * r, bb, s * s);
    assert r * r * (s * s) == p * p;
    assert ab * ab <= p * p;
    if ab > p {
      StrictSquare(p, ab);
    }
  }

  lemma StrictSquare(p: real, q: real)
    requires 0.0 <= p < q
    ensures p * p < q * q
  {
    PositiveProduct(q - p, q + p);
    assert (q - p) * (q + p) == q * q - p * p;
  }

  lemma Triangle(a: Vec, b: Vec, r: real, s: real)
    requires |a| == |b| && Within(a, r) && Within(b, s)
    ensures Within(Add(a, b), r + s)
  {
    hide Dot;
    SquareOfSum(a, b);
    CauchySchwarz(a, b, r, s);
  }
}

/** The Sylvester-Hadamard rotation and the quantizer that works in rotated coordinates. */
module Hadamard {
  import opened PowersOfTwo
  import opened RealArithmetic
  import opened Vectors

  type Matrix = seq<Vec>

  ghost predicate IsSquare(h: Matrix) {
    forall i :: 0 <= i < |h| ==> |h[i]| == |h|
  }

  function Negate(a: Vec): Vec {
    seq(|a|, i requires 0 <= i < |a| => -a[i])
  }

  /** The block matrix [h h; h -h]. */
  function Double(h: Matrix): (d: Matrix)
    ensures |d| == 2 * |h|
    ensures forall i :: 0 <= i < |h| ==> d[i] == h[i] + h[i] && d[|h| + i] == h[i] + Negate(h[i])
  {
    seq(2 * |h|, i requires 0 <= i < 2 * |h| => if i < |h| then h[i] + h[i] else h[i - |h|] + Negate(h[i - |h|]))
  }

  function Sylvester(k: nat): (h: Matrix)
    ensures h != [] && IsSquare(h)
  {
    if k == 0 then [[1.0]] else Double(Sylvester(k - 1))
  }

  function ScaleMatrix(c: real, h: Matrix): (m: Matrix)
    ensures |m| == |h| && forall i :: 0 <= i < |h| ==> m[i] == Scale(c, h[i])
  {
    seq(|h|, i requires 0 <= i < |h| => Scale(c, h[i]))
  }

  lemma {:induction false} SylvesterSize(k: nat)
    ensures |Sylvester(k)| == TwoTo(k)
  {
    if k > 0 {
      SylvesterSize(k - 1);
    }
  }

  /** The doubling loop: the first size of at least n. The divisor is the square root of n itself, given
      here by its inverse c. */
  method BuildHadamard(n: nat, c: real) returns (h: Matrix)
    requires n >= 1 && c * c * n as real == 1.0
    ensures h == ScaleMatrix(c, Sylvester(Doublings(n)))
  {
    var block: Matrix := [[1.0]];
    ghost var k := 0;
    while |block| < n
      invariant block == Sylvester(k) && |block| == TwoTo(k)
      invariant k > 0 ==> TwoTo(k - 1) < n
      decreases n - |block|
    {
      block := Double(block);
      k := k + 1;
    }
    DoublingsUnique(n, k);
    h := ScaleMatrix(c, block);
  }

  // ----- orthogonality of the unscaled matrix ---------------------------------------------------

  lemma {:induction false} DotNegate(a: Vec, b: Vec)
    requires |a| == |b|
    ensures Dot(Negate(a), b) == -Dot(a, b)
    ensures Dot(b, Negate(a)) == -Dot(b, a)
  {
    if a != [] {
      assert Negate(a)[1..] == Negate(a[1..]);
      DotNegate(a[1..], b[1..]);
    }
  }

  lemma DotOfBlocks(a: Vec, b: Vec)
    requires |a| == |b|
    ensures Dot(a + a, b + b) == 2.0 * Dot(a, b)
    ensures Dot(a + a, b + Negate(b)) == 0.0
    ensures Dot(a + Negate(a), b + b) == 0.0
    ensures Dot(a + Negate(a), b + Negate(b)) == 2.0 * Dot(a, b)
  {
    DotConcat(a, a, b, b);
    DotConcat(a, a, b, Negate(b));
    DotConcat(a, Negate(a), b, b);
    DotConcat(a, Negate(a), b, Negate(b));
    DotNegate(b, a);
    DotNegate(a, b);
    DotNegate(a, Negate(b));
  }

  lemma DoubleRows(h: Matrix, i: nat, j: nat)
    requires IsSquare(h) && i < 2 * |h| && j < 2 * |h|
    ensures IsSquare(Double(h))
    ensures var a, b := if i < |h| then i else i - |h|, if j < |h| then j else j - |h|;
            Dot(Double(h)[i], Double(h)[j]) == if (i < |h|) == (j < |h|) then 2.0 * Dot(h[a], h[b]) else 0.0
  {
    var a, b := if i < |h| then i else i - |h|, if j < |h| then j else j - |h|;
    DotOfBlocks(h[a], h[b]);
  }

  /** H * H^T = n * I. */
  lemma {:induction false} RowsOrthogonal(k: nat, i: nat, j: nat)
    requires i < |Sylvester(k)| && j < |Sylvester(k)|
    ensures Dot(Sylvester(k)[i], Sylvester(k)[j]) == if i == j then |Sylvester(k)| as real else 0.0
  {
    if k == 0 {
      assert Dot([1.0], [1.0]) == 1.0 + Dot([1.0][1..], [1.0][1..]);
    } else {
      var h := Sylvester(k - 1);
      RowsOrthogonal(k - 1, if i < |h| then i else i - |h|, if j < |h| then j else j - |h|);
      DoubleRows(h, i, j);
    }
  }

  /** Where entry (i, j) of the doubled matrix comes from. */
  lemma DoubleEntry(h: Matrix, i: nat, j: nat)
    requires IsSquare(h) && i < 2 * |h| && j < 2 * |h|
    ensures IsSquare(Double(h))
    ensures var a, b := if i < |h| then i else i - |h|, if j < |h| then j else j - |h|;
            Double(h)[i][j] == if i < |h| || j < |h| then h[a][b] else -h[a][b]
  {
    var a := if i < |h| then i else i - |h|;
    assert Double(h)[i] == if i < |h| then h[a] + h[a] else h[a] + Negate(h[a]);
  }

  lemma {:induction false} Symmetric(k: nat, i: nat, j: nat)
    requires i < |Sylvester(k)| && j < |Sylvester(k)|
    ensures Sylvester(k)[i][j] == Sylvester(k)[j][i]
  {
    if k > 0 {
      var h := Sylvester(k - 1);
      Symmetric(k - 1, if i < |h| then i else i - |h|, if j < |h| then j else j - |h|);
      DoubleEntry(h, i, j);
      DoubleEntry(h, j, i);
    }
  }

  /** Whether i and j have an odd number of binary ones in common. */
  predicate OddInCommon(i: nat, j: nat) {
    i > 0 && ((i % 2 == 1 && j % 2 == 1) != OddInCommon(i / 2, j / 2))
  }

  /** The topmost bit decides with the rest, where m is its weight. */
  lemma {:induction false} TopBit(k: nat, i: nat, j: nat)
    requires i < 2 * TwoTo(k) && j < 2 * TwoTo(k)
    ensures var m := TwoTo(k);
            OddInCommon(i, j) == ((i >= m && j >= m) != OddInCommon(if i < m then i else i - m, if j < m then j else j - m))
  {
    if k > 0 {
      TopBit(k - 1, i / 2, j / 2);
    } else {
      assert TwoTo(0) == 1 && !OddInCommon(0, 0);
    }
  }

  /** Entry (i, j) in closed form: minus one for an odd number of common bits. */
  lemma {:induction false} EntryIsWalsh(k: nat, i: nat, j: nat)
    requires i < |Sylvester(k)| && j < |Sylvester(k)|
    ensures Sylvester(k)[i][j] == if OddInCommon(i, j) then -1.0 else 1.0
  {
    hide OddInCommon;
    if k > 0 {
      var h := Sylvester(k - 1);
      assert Sylvester(k) == Double(h);
      SylvesterSize(k - 1);
      TopBit(k - 1, i, j);
      EntryIsWalsh(k - 1, if i < |h| then i else i - |h|, if j < |h| then j else j - |h|);
      hide Double, Sylvester;
      DoubleEntry(h, i, j);
    } else {
      assert Sylvester(0) == [[1.0]];
      NothingInCommon();
    }
  }

  lemma NothingInCommon()
    ensures !OddInCommon(0, 0)
  {
  }

  function Column(h: Matrix, j: nat): (v: Vec)
    requires IsSquare(h) && j < |h|
    ensures |v| == |h|
  {
    seq(|h|, i requires 0 <= i < |h| => h[i][j])
  }

  lemma ColumnIsRow(k: nat, j: nat)
    requires j < |Sylvester(k)|
    ensures Column(Sylvester(k), j) == Sylvester(k)[j]
  {
    var h := Sylvester(k);
    forall i | 0 <= i < |h|
      ensures Column(h, j)[i] == h[j][i]
    {
      Symmetric(k, i, j);
    }
  }

  /** H^T * H = n * I. */
  lemma ColumnsOrthogonal(k: nat, i: nat, j: nat)
    requires i < |Sylvester(k)| && j < |Sylvester(k)|
    ensures Dot(Column(Sylvester(k), i), Column(Sylvester(k), j)) == if i == j then |Sylvester(k)| as real else 0.0
  {
    ColumnIsRow(k, i);
    ColumnIsRow(k, j);
    RowsOrthogonal(k, i, j);
  }

  // ----- the transform --------------------------------------------------------------------------

  /** h @ x. */
  function MatVec(h: Matrix, x: Vec): (y: Vec)
    requires IsSquare(h) && |x| == |h|
    ensures |y| == |h|
  {
    seq(|h|, i requires 0 <= i < |h| => Dot(h[i], x))
  }

  /** y @ h. */
  function VecMat(y: Vec, h: Matrix): (x: Vec)
    requires IsSquare(h) && |y| == |h|
    ensures |x| == |h|
  {
    seq(|h|, j requires 0 <= j < |h| => Dot(y, Column(h, j)))
  }

  lemma TransformOfBlocks(h: Matrix, a: Vec, b: Vec)
    requires IsSquare(h) && |a| == |b| == |h|
    ensures IsSquare(Double(h))
    ensures MatVec(Double(h), a + b) == Add(MatVec(h, a), MatVec(h, b)) + Sub(MatVec(h, a), MatVec(h, b))
  {
    var y := MatVec(Double(h), a + b);
    forall i | 0 <= i < |h|
      ensures y[i] == Dot(h[i], a) + Dot(h[i], b)
      ensures y[|h| + i] == Dot(h[i], a) - Dot(h[i], b)
    {
      DotConcat(h[i], h[i], a, b);
      DotConcat(h[i], Negate(h[i]), a, b);
      DotNegate(h[i], b);
    }
  }

  lemma DotOfSumRight(a: Vec, c: Vec, d: Vec)
    requires |a| == |c| == |d|
    ensures Dot(a, Add(c, d)) == Dot(a, c) + Dot(a, d)
    ensures Dot(a, Sub(c, d)) == Dot(a, c) - Dot(a, d)
  {
    DotSymmetric(a, Add(c, d));
    DotSymmetric(a, Sub(c, d));
    DotAdd(c, d, a);
    DotSub(c, d, a);
    DotSymmetric(a, c);
    DotSymmetric(a, d);
  }

  lemma TransformOfOne(x: Vec)
    requires |x| == 1
    ensures MatVec(Sylvester(0), x) == x
  {
    assert Dot([1.0], x) == x[0] + Dot([1.0][1..], x[1..]);
  }

  lemma TransformAdd(h: Matrix, a: Vec, b: Vec)
    requires IsSquare(h) && |a| == |b| == |h|
    ensures MatVec(h, Add(a, b)) == Add(MatVec(h, a), MatVec(h, b))
    ensures MatVec(h, Sub(a, b)) == Sub(MatVec(h, a), MatVec(h, b))
  {
    forall i | 0 <= i < |h|
      ensures MatVec(h, Add(a, b))[i] == Add(MatVec(h, a), MatVec(h, b))[i]
      ensures MatVec(h, Sub(a, b))[i] == Sub(MatVec(h, a), MatVec(h, b))[i]
    {
      DotOfSumRight(h[i], a, b);
    }
  }

  lemma ScaleConcat(r: real, a: Vec, b: Vec)
    ensures Scale(r, a) + Scale(r, b) == Scale(r, a + b)
  {
    var s, t := Scale(r, a) + Scale(r, b), Scale(r, a + b);
    forall i | 0 <= i < |a| + |b|
      ensures s[i] == t[i]
    {
      assert (a + b)[i] == if i < |a| then a[i] else b[i - |a|];
    }
  }

  lemma TwiceSum(n: real, a: Vec, b: Vec)
    requires |a| == |b|
    ensures Add(Add(Scale(n, a), Scale(n, b)), Sub(Scale(n, a), Scale(n, b))) == Scale(2.0 * n, a)
    ensures Sub(Add(Scale(n, a), Scale(n, b)), Sub(Scale(n, a), Scale(n, b))) == Scale(2.0 * n, b)
  {
  }

  lemma TransformTwiceStep(g: Matrix, n: real, a: Vec, b: Vec)
    requires IsSquare(g) && |a| == |b| == |g|
    requires MatVec(g, MatVec(g, a)) == Scale(n, a) && MatVec(g, MatVec(g, b)) == Scale(n, b)
    ensures IsSquare(Double(g))
    ensures MatVec(Double(g), MatVec(Double(g), a + b)) == Scale(2.0 * n, a + b)
  {
    var p, q := MatVec(g, a), MatVec(g, b);
    TransformOfBlocks(g, a, b);
    TransformOfBlocks(g, Add(p, q), Sub(p, q));
    TransformAdd(g, p, q);
    TwiceSum(n, a, b);
    ScaleConcat(2.0 * n, a, b);
  }

  /** Applying the transform twice scales by n. */
  lemma {:induction false} TransformTwice(k: nat, x: Vec)
    requires |x| == |Sylvester(k)|
    ensures MatVec(Sylvester(k), MatVec(Sylvester(k), x)) == Scale(|Sylvester(k)| as real, x)
  {
    if k == 0 {
      TransformOfOne(x);
      assert Scale(1.0, x) == x;
    } else {
      var g := Sylvester(k - 1);
      var m := |g|;
      TransformTwice(k - 1, x[..m]);
      TransformTwice(k - 1, x[m..]);
      TransformTwiceStep(g, m as real, x[..m], x[m..]);
      assert x == x[..m] + x[m..];
      assert |Sylvester(k)| as real == 2.0 * m as real;
    }
  }

  lemma SelfAdjointStep(g: Matrix, a: Vec, b: Vec, c: Vec, d: Vec)
    requires IsSquare(g) && |a| == |b| == |c| == |d| == |g|
    requires Dot(MatVec(g, a), c) == Dot(a, MatVec(g, c)) && Dot(MatVec(g, a), d) == Dot(a, MatVec(g, d))
    requires Dot(MatVec(g, b), c) == Dot(b, MatVec(g, c)) && Dot(MatVec(g, b), d) == Dot(b, MatVec(g, d))
    ensures IsSquare(Double(g))
    ensures Dot(MatVec(Double(g), a + b), c + d) == Dot(a + b, MatVec(Double(g), c + d))
  {
    var p, q, r, s := MatVec(g, a), MatVec(g, b), MatVec(g, c), MatVec(g, d);
    TransformOfBlocks(g, a, b);
    TransformOfBlocks(g, c, d);
    DotConcat(Add(p, q), Sub(p, q), c, d);
    DotConcat(a, b, Add(r, s), Sub(r, s));
    DotAdd(p, q, c);
    DotSub(p, q, d);
    DotOfSumRight(a, r, s);
    DotOfSumRight(b, r, s);
  }

  lemma {:induction false} SelfAdjoint(k: nat, x: Vec, y: Vec)
    requires |x| == |y| == |Sylvester(k)|
    ensures Dot(MatVec(Sylvester(k), x), y) == Dot(x, MatVec(Sylvester(k), y))
  {
    if k == 0 {
      TransformOfOne(x);
      TransformOfOne(y);
    } else {
      var m := |Sylvester(k - 1)|;
      SelfAdjoint(k - 1, x[..m], y[..m]);
      SelfAdjoint(k - 1, x[..m], y[m..]);
      SelfAdjoint(k - 1, x[m..], y[..m]);
      SelfAdjoint(k - 1, x[m..], y[m..]);
      SelfAdjointStep(Sylvester(k - 1), x[..m], x[m..], y[..m], y[m..]);
      assert x == x[..m] + x[m..] && y == y[..m] + y[m..];
    }
  }

  // ----- the normalized matrix ------------------------------------------------------------------

  lemma ScaledTransform(c: real, h: Matrix, x: Vec)
    requires IsSquare(h) && |x| == |h|
    ensures IsSquare(ScaleMatrix(c, h)) && MatVec(ScaleMatrix(c, h), x) == Scale(c, MatVec(h, x))
  {
    forall i | 0 <= i < |h|
      ensures MatVec(ScaleMatrix(c, h), x)[i] == Scale(c, MatVec(h, x))[i]
    {
      DotScale(c, h[i], x);
    }
  }

  lemma TransformScaled(h: Matrix, c: real, x: Vec)
    requires IsSquare(h) && |x| == |h|
    ensures MatVec(h, Scale(c, x)) == Scale(c, MatVec(h, x))
  {
    forall i | 0 <= i < |h|
      ensures MatVec(h, Scale(c, x))[i] == Scale(c, MatVec(h, x))[i]
    {
      DotScaleRight(h[i], c, x);
    }
  }

  lemma ScaleThrice(c: real, n: real, x: Vec)
    requires c * c * n == 1.0
    ensures Scale(c, Scale(c, Scale(n, x))) == x
  {
    var y := Scale(c, Scale(c, Scale(n, x)));
    forall i | 0 <= i < |x|
      ensures y[i] == x[i]
    {
    }
  }

  /** A normalized Sylvester matrix: symmetric, and its own inverse. */
  ghost predicate Normalized(h: Matrix, k: nat, c: real) {
    h == ScaleMatrix(c, Sylvester(k)) && c * c * |Sylvester(k)| as real == 1.0
  }

  lemma NormalizedInvolution(h: Matrix, k: nat, c: real, x: Vec)
    requires Normalized(h, k, c) && |x| == |h|
    ensures IsSquare(h) && MatVec(h, MatVec(h, x)) == x
  {
    var s := Sylvester(k);
    ScaledTransform(c, s, x);
    ScaledTransform(c, s, MatVec(h, x));
    TransformScaled(s, c, MatVec(s, x));
    TransformTwice(k, x);
    ScaleThrice(c, |s| as real, x);
  }

  lemma NormalizedSelfAdjoint(h: Matrix, k: nat, c: real, x: Vec, y: Vec)
    requires Normalized(h, k, c) && |x| == |y| == |h|
    ensures IsSquare(h) && Dot(MatVec(h, x), y) == Dot(x, MatVec(h, y))
  {
    var s := Sylvester(k);
    ScaledTransform(c, s, x);
    ScaledTransform(c, s, y);
    SelfAdjoint(k, x, y);
    ScaleEitherSide(c, MatVec(s, x), y, x, MatVec(s, y));
  }

  /** Rotation preserves every inner product. */
  lemma NormalizedPreservesDot(h: Matrix, k: nat, c: real, x: Vec, y: Vec)
    requires Normalized(h, k, c) && |x| == |y| == |h|
    ensures IsSquare(h) && Dot(MatVec(h, x), MatVec(h, y)) == Dot(x, y)
  {
    NormalizedInvolution(h, k, c, y);
    NormalizedSelfAdjoint(h, k, c, x, MatVec(h, y));
  }

  lemma ScaledSymmetric(h: Matrix, k: nat, c: real, i: nat, j: nat)
    requires h == ScaleMatrix(c, Sylvester(k)) && i < |h| && j < |h|
    ensures IsSquare(h) && h[i][j] == h[j][i]
  {
    hide Sylvester;
    Symmetric(k, i, j);
  }

  lemma ScaledColumns(h: Matrix, k: nat, c: real, y: Vec)
    requires h == ScaleMatrix(c, Sylvester(k)) && |y| == |h|
    ensures IsSquare(h) && VecMat(y, h) == MatVec(h, y)
  {
    forall j | 0 <= j < |h|
      ensures VecMat(y, h)[j] == MatVec(h, y)[j]
    {
      forall i | 0 <= i < |h|
        ensures h[i][j] == h[j][i]
      {
        ScaledSymmetric(h, k, c, i, j);
      }
      assert Column(h, j) == h[j];
      DotSymmetric(y, h[j]);
    }
  }

  lemma UnitRows(k: nat, c: real, i: nat, j: nat)
    requires i < |Sylvester(k)| && j < |Sylvester(k)|
    ensures Dot(Scale(c, Sylvester(k)[i]), Scale(c, Sylvester(k)[j]))
         == if i == j then (c * c) * |Sylvester(k)| as real else 0.0
  {
    hide Dot, Scale, Double;
    RowsOrthogonal(k, i, j);
    DotOfScaled(c, Sylvester(k)[i], c, Sylvester(k)[j]);
  }

  ghost predicate Orthonormal(h: Matrix)
    requires IsSquare(h)
  {
    forall i, j :: 0 <= i < |h| && 0 <= j < |h| ==> Dot(h[i], h[j]) == if i == j then 1.0 else 0.0
  }

  /** The built matrix is orthonormal exactly when n is a power of two; for any other n its rows are
      too long for the divisor. */
  lemma OrthonormalIffPowerOfTwo(n: nat, c: real)
    requires n >= 1 && c * c * n as real == 1.0
    ensures IsSquare(ScaleMatrix(c, Sylvester(Doublings(n))))
    ensures Orthonormal(ScaleMatrix(c, Sylvester(Doublings(n)))) <==> IsPowerOfTwo(n)
  {
    hide Dot, Sylvester, Scale, TwoTo, Doublings, IsPowerOfTwo;
    var k := Doublings(n);
    var h, m := ScaleMatrix(c, Sylvester(k)), |Sylvester(k)|;
    SylvesterSize(k);
    PowerOfTwoIff(n);
    UnitLength(c, n as real, m as real);
    forall i, j | 0 <= i < m && 0 <= j < m
      ensures Dot(h[i], h[j]) == if i == j then (c * c) * m as real else 0.0
    {
      UnitRows(k, c, i, j);
    }
    if Orthonormal(h) {
      assert Dot(h[0], h[0]) == 1.0;
    }
  }

  lemma UnitLength(c: real, n: real, m: real)
    requires n > 0.0 && c * c * n == 1.0
    ensures (c * c) * m == 1.0 <==> m == n
  {
    var q := c * c;
    assert q * n == 1.0;
    assert q != 0.0;
  }
}

/** TurboQuant in the mean-square form: rotate a scaled vector, quantize each coordinate, rotate back. */
module TurboQuantMse {
  import opened Codebook
  import opened Hadamard
  import opened RealArithmetic
  import opened Vectors

  datatype TurboQuant = TurboQuant(signs: Vec, h: Matrix) {

    /** What the constructor sets up: one sign per coordinate and a normalized Sylvester matrix. */
    ghost predicate Valid() {
      && |signs| == |h|
      && (forall i :: 0 <= i < |signs| ==> signs[i] == 1.0 || signs[i] == -1.0)
      && exists k, c :: Normalized(h, k, c)
    }

    function Rot(u: Vec): (y: Vec)
      requires IsSquare(h) && |u| == |signs| == |h|
      ensures |y| == |h| && forall i :: 0 <= i < |h| ==> y[i] == Dot(h[i], Flip(u, signs))
    {
      MatVec(h, Flip(u, signs))
    }

    function Unrot(y: Vec): (u: Vec)
      requires IsSquare(h) && |y| == |signs| == |h|
      ensures |u| == |h| && forall j :: 0 <= j < |h| ==> u[j] == Dot(y, Column(h, j)) * signs[j]
    {
      Flip(VecMat(y, h), signs)
    }

    /** x is quantized at the norm n the cache stores beside it. */
    function Mse(x: Vec, n: real, book: Vec): (r: Vec)
      requires IsSquare(h) && |x| == |signs| == |h| && n > 0.0 && book != []
      ensures |r| == |x|
    {
      Scale(n, Unrot(Quantize(Rot(Scale(1.0 / n, x)), book)))
    }
  }

  function Flip(u: Vec, signs: Vec): (v: Vec)
    requires |u| == |signs|
    ensures |v| == |u| && forall i :: 0 <= i < |u| ==> v[i] == u[i] * signs[i]
  {
    seq(|u|, i requires 0 <= i < |u| => u[i] * signs[i])
  }

  function Quantize(y: Vec, book: Vec): (q: Vec)
    requires book != []
    ensures |q| == |y|
  {
    seq(|y|, i requires 0 <= i < |y| => Nearest(book, y[i]))
  }

  ghost predicate Signs(signs: Vec) {
    forall i :: 0 <= i < |signs| ==> signs[i] == 1.0 || signs[i] == -1.0
  }

  lemma FlipTwice(u: Vec, signs: Vec)
    requires |u| == |signs| && Signs(signs)
    ensures Flip(Flip(u, signs), signs) == u
  {
  }

  lemma {:induction false} FlipPreservesDot(u: Vec, v: Vec, signs: Vec)
    requires |u| == |v| == |signs| && Signs(signs)
    ensures Dot(Flip(u, signs), Flip(v, signs)) == Dot(u, v)
  {
    if u != [] {
      FlipTail(u, signs);
      FlipTail(v, signs);
      FlipPreservesDot(u[1..], v[1..], signs[1..]);
      assert Flip(u, signs)[0] * Flip(v, signs)[0] == u[0] * v[0];
    }
  }

  lemma FlipTail(u: Vec, signs: Vec)
    requires |u| == |signs| && u != []
    ensures Flip(u, signs)[1..] == Flip(u[1..], signs[1..])
  {
    forall i | 0 <= i < |u| - 1
      ensures Flip(u, signs)[1..][i] == Flip(u[1..], signs[1..])[i]
    {
      assert u[1..][i] == u[i + 1] && signs[1..][i] == signs[i + 1];
    }
  }

  /** Un-rotating inverts rotating, and rotating inverts un-rotating. */
  lemma RotRoundTrip(t: TurboQuant, u: Vec)
    requires t.Valid() && |u| == |t.h|
    ensures IsSquare(t.h) && t.Unrot(t.Rot(u)) == u && t.Rot(t.Unrot(u)) == u
  {
    var k, c :| Normalized(t.h, k, c);
    NormalizedInvolution(t.h, k, c, Flip(u, t.signs));
    NormalizedInvolution(t.h, k, c, u);
    ScaledColumns(t.h, k, c, t.Rot(u));
    ScaledColumns(t.h, k, c, u);
    FlipTwice(u, t.signs);
    FlipTwice(MatVec(t.h, u), t.signs);
  }

  lemma RotPreservesDot(t: TurboQuant, u: Vec, v: Vec)
    requires t.Valid() && |u| == |v| == |t.h|
    ensures IsSquare(t.h) && Dot(t.Rot(u), t.Rot(v)) == Dot(u, v)
  {
    var k, c :| Normalized(t.h, k, c);
    NormalizedPreservesDot(t.h, k, c, Flip(u, t.signs), Flip(v, t.signs));
    FlipPreservesDot(u, v, t.signs);
  }

  lemma UnrotPreservesDot(t: TurboQuant, u: Vec, v: Vec)
    requires t.Valid() && |u| == |v| == |t.h|
    ensures IsSquare(t.h) && Dot(t.Unrot(u), t.Unrot(v)) == Dot(u, v)
  {
    RotRoundTrip(t, u);
    RotRoundTrip(t, v);
    RotPreservesDot(t, t.Unrot(u), t.Unrot(v));
  }

  lemma UnrotSub(t: TurboQuant, u: Vec, v: Vec)
    requires t.Valid() && |u| == |v| == |t.h|
    ensures IsSquare(t.h) && t.Unrot(Sub(u, v)) == Sub(t.Unrot(u), t.Unrot(v))
  {
    var k, c :| Normalized(t.h, k, c);
    ScaledColumns(t.h, k, c, u);
    ScaledColumns(t.h, k, c, v);
    ScaledColumns(t.h, k, c, Sub(u, v));
    TransformAdd(t.h, u, v);
    FlipSub(MatVec(t.h, u), MatVec(t.h, v), t.signs);
  }

  lemma FlipSub(u: Vec, v: Vec, signs: Vec)
    requires |u| == |v| == |signs| && Signs(signs)
    ensures Flip(Sub(u, v), signs) == Sub(Flip(u, signs), Flip(v, signs))
  {
  }

  lemma ScaleSub(n: real, u: Vec, v: Vec)
    requires |u| == |v|
    ensures Sub(Scale(n, u), Scale(n, v)) == Scale(n, Sub(u, v))
  {
    var s, t := Sub(Scale(n, u), Scale(n, v)), Scale(n, Sub(u, v));
    forall i | 0 <= i < |u|
      ensures s[i] == t[i]
    {
    }
  }

  lemma ScaleBack(n: real, x: Vec)
    requires n != 0.0
    ensures Scale(n, Scale(1.0 / n, x)) == x
  {
    var r := 1.0 / n;
    var y := Scale(n, Scale(r, x));
    forall i | 0 <= i < |x|
      ensures y[i] == x[i]
    {
    }
  }

  /** The squared error n^2 |d|^2 of a vector at norm n that misses by d in rotated coordinates. */
  function ErrorAt(n: real, d: Vec): real {
    (n * n) * Square(d)
  }

  lemma ScaledEnergy(n: real, v: Vec, d: Vec)
    requires Square(v) == Square(d)
    ensures Square(Scale(n, v)) == ErrorAt(n, d)
  {
    hide Square;
    SquareScaled(n, v);
  }

  lemma MissIsRotatedMiss(t: TurboQuant, x: Vec, n: real, q: Vec)
    requires t.Valid() && |x| == |q| == |t.h| && n > 0.0
    ensures IsSquare(t.h)
    ensures Sub(x, Scale(n, t.Unrot(q))) == Scale(n, t.Unrot(Sub(t.Rot(Scale(1.0 / n, x)), q)))
  {
    var u := Scale(1.0 / n, x);
    RotRoundTrip(t, u);
    ScaleBack(n, x);
    ScaleSub(n, u, t.Unrot(q));
    UnrotSub(t, t.Rot(u), q);
  }

  /** Any vector q put back from rotated coordinates misses x by n^2 times its own error there. */
  lemma ErrorIsometry(t: TurboQuant, x: Vec, n: real, q: Vec)
    requires t.Valid() && |x| == |q| == |t.h| && n > 0.0
    ensures IsSquare(t.h)
    ensures var e := Sub(x, Scale(n, t.Unrot(q)));
            Square(e) == ErrorAt(n, Sub(t.Rot(Scale(1.0 / n, x)), q))
  {
    hide Dot, Scale, Sub, ErrorAt;
    MissIsRotatedMiss(t, x, n, q);
    var d := Sub(t.Rot(Scale(1.0 / n, x)), q);
    UnrotPreservesDot(t, d, d);
    ScaledEnergy(n, t.Unrot(d), d);
  }

  lemma ErrorAtMonotone(n: real, d: Vec, e: Vec)
    requires Square(d) <= Square(e)
    ensures ErrorAt(n, d) <= ErrorAt(n, e)
  {
    hide Square;
  }

  lemma {:induction false} NearerCoordinates(y: Vec, q: Vec, z: Vec)
    requires |y| == |q| == |z|
    requires forall i :: 0 <= i < |y| ==> Abs(y[i] - q[i]) <= Abs(y[i] - z[i])
    ensures Square(Sub(y, q)) <= Square(Sub(y, z))
  {
    if y != [] {
      assert Sub(y, q)[1..] == Sub(y[1..], q[1..]);
      assert Sub(y, z)[1..] == Sub(y[1..], z[1..]);
      NearerCoordinates(y[1..], q[1..], z[1..]);
      SquareMonotone(y[0] - q[0], y[0] - z[0]);
    }
  }

  /** Every coordinate of what Mse returns, divided by the norm and rotated again, is a codeword nearest to
      the coordinate of x so treated. */
  lemma MseHoldsCodewords(t: TurboQuant, x: Vec, n: real, book: Vec, i: nat)
    requires t.Valid() && |x| == |t.h| && n > 0.0 && book != [] && i < |x|
    ensures IsSquare(t.h)
    ensures exists j: nat :: IsNearest(book, t.Rot(Scale(1.0 / n, x))[i], j)
              && t.Rot(Scale(1.0 / n, t.Mse(x, n, book)))[i] == book[j]
  {
    RotRoundTrip(t, x);
    var y := t.Rot(Scale(1.0 / n, x));
    var q := Quantize(y, book);
    RotRoundTrip(t, q);
    ScaleForth(n, t.Unrot(q));
    assert IsNearest(book, y[i], NearestIndex(book, y[i])) && q[i] == Nearest(book, y[i]);
    assert t.Rot(Scale(1.0 / n, t.Mse(x, n, book))) == q;
  }

  lemma ScaleForth(n: real, x: Vec)
    requires n != 0.0
    ensures Scale(1.0 / n, Scale(n, x)) == x
  {
    var y := Scale(1.0 / n, Scale(n, x));
    forall i | 0 <= i < |x|
      ensures y[i] == x[i]
    {
      assert (1.0 / n) * (n * x[i]) == ((1.0 / n) * n) * x[i];
    }
  }

  /** No choice of codewords, rotated back, is closer to x than what Mse returns. */
  lemma MseIsOptimal(t: TurboQuant, x: Vec, n: real, book: Vec, z: Vec)
    requires t.Valid() && |x| == |z| == |t.h| && n > 0.0 && book != []
    requires forall i :: 0 <= i < |z| ==> z[i] in book
    ensures IsSquare(t.h)
    ensures var best, other := Sub(x, t.Mse(x, n, book)), Sub(x, Scale(n, t.Unrot(z)));
            Square(best) <= Square(other)
  {
    RotRoundTrip(t, x);
    var y := t.Rot(Scale(1.0 / n, x));
    var q := Quantize(y, book);
    forall i | 0 <= i < |y|
      ensures Abs(y[i] - q[i]) <= Abs(y[i] - z[i])
    {
      assert IsNearest(book, y[i], NearestIndex(book, y[i]));
      var j :| 0 <= j < |book| && book[j] == z[i];
    }
    NearerCoordinates(y, q, z);
    ErrorIsometry(t, x, n, q);
    ErrorIsometry(t, x, n, z);
    ErrorAtMonotone(n, Sub(y, q), Sub(y, z));
  }
}

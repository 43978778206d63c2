/** MXFP4 block quantization: e2m1 elements under one shared power-of-two scale, as section 5.3.3 and
    section 6.3 of the OCP Microscaling Formats (MX) Specification v1.0 lay the format out. */
module Mxfp4 {
  import opened Codebook
  import opened RealArithmetic

  const E2M1: seq<real> := [0.0, 0.5, 1.0, 1.5, 2.0, 3.0, 4.0, 6.0]

  /** The codewords in the order of their encodings: exponent bits e and mantissa bit m give m halves when e
      is 0, and (1 + m / 2) times 2^(e - 1) otherwise. */
  lemma {:induction false} CodewordIsEncoded(e: nat, m: nat)
    requires e < 4 && m < 2
    ensures |E2M1| == 4 * 2
    ensures E2M1[2 * e + m] == if e == 0 then m as real * 0.5 else Pow2(e - 1) * (1.0 + m as real * 0.5)
  {
    assert Pow2(1) == 2.0 * Pow2(0) && Pow2(2) == 2.0 * Pow2(1);
    assert E2M1[2 * e] == if e == 0 then 0.0 else Pow2(e - 1);
    if e == 1 { assert E2M1[3] == 1.5; }
    if e == 2 { assert E2M1[5] == 3.0; }
    if e == 3 { assert E2M1[7] == 6.0; }
  }

  function Sign(x: real): real {
    if x > 0.0 then 1.0 else if x < 0.0 then -1.0 else 0.0
  }

  /** The element's rounding, saturating at 6; a tie goes to the lower magnitude. */
  function E2m1(x: real): real {
    Decode(NearestIndex(E2M1, Smaller(Abs(x), 6.0)), x)
  }

  /** Codeword k with the sign of x. */
  function Decode(k: nat, x: real): real
    requires k < |E2M1|
  {
    E2M1[k] * Sign(x)
  }

  /** q is v rounded to codeword k under scale s; a tie may go either way. */
  ghost predicate ElementAt(v: real, s: real, q: real, k: nat) {
    s > 0.0 && IsNearest(E2M1, Smaller(Abs(v / s), 6.0), k) && q == Decode(k, v / s) * s
  }

  ghost predicate Element(v: real, s: real, q: real) {
    exists k: nat :: ElementAt(v, s, q, k)
  }

  // ----- powers of two --------------------------------------------------------------------------

  function Pow2(e: int): (p: real)
    ensures p > 0.0
    decreases if e < 0 then -e else e
  {
    if e == 0 then 1.0 else if e > 0 then 2.0 * Pow2(e - 1) else Pow2(e + 1) / 2.0
  }

  lemma {:induction false} Pow2Step(e: int)
    ensures Pow2(e + 1) == 2.0 * Pow2(e)
  {
  }

  lemma {:induction false} Pow2Monotone(d: int, e: int)
    requires d <= e
    ensures Pow2(d) <= Pow2(e)
    decreases e - d
  {
    if d < e {
      Pow2Step(d);
      Pow2Monotone(d + 1, e);
    }
  }

  function FloorLog2(a: real): int
    requires a > 0.0
    decreases a < 1.0, if a < 1.0 then (1.0 / a).Floor else a.Floor
  {
    if a < 1.0 then
      ReciprocalShrinks(a);
      FloorLog2(2.0 * a) - 1
    else if a >= 2.0 then
      HalfShrinks(a);
      FloorLog2(a / 2.0) + 1
    else
      0
  }

  lemma ReciprocalShrinks(a: real)
    requires 0.0 < a < 1.0
    ensures (1.0 / a).Floor >= 1
    ensures 2.0 * a < 1.0 ==> 0 <= (1.0 / (2.0 * a)).Floor < (1.0 / a).Floor
  {
    var r := 1.0 / a;
    assert r * a == 1.0;
    assert r > 1.0;
    if 2.0 * a < 1.0 {
      HalfReciprocal(a, r, 1.0 / (2.0 * a));
    }
  }

  lemma HalfReciprocal(a: real, r: real, h: real)
    requires 0.0 < a && 2.0 * a < 1.0 && r == 1.0 / a && h == 1.0 / (2.0 * a) && r > 1.0
    ensures 0 <= h.Floor < r.Floor
  {
    assert h * (2.0 * a) == 1.0;
    assert (2.0 * h) * a == 1.0 == r * a;
    if h <= 1.0 {
      ScaledBound(2.0 * a, h, 1.0);
    }
  }

  lemma HalfShrinks(a: real)
    requires a >= 2.0
    ensures 1 <= (a / 2.0).Floor < a.Floor && a / 2.0 >= 1.0
  {
  }

  lemma {:induction false} FloorLog2Brackets(a: real)
    requires a > 0.0
    ensures Pow2(FloorLog2(a)) <= a < Pow2(FloorLog2(a) + 1)
    decreases a < 1.0, if a < 1.0 then (1.0 / a).Floor else a.Floor
  {
    var e := FloorLog2(a);
    if a < 1.0 {
      ReciprocalShrinks(a);
      FloorLog2Brackets(2.0 * a);
      Pow2Step(e);
      Pow2Step(e + 1);
    } else if a >= 2.0 {
      HalfShrinks(a);
      FloorLog2Brackets(a / 2.0);
      Pow2Step(e - 1);
      Pow2Step(e);
    } else {
      assert Pow2(1) == 2.0 * Pow2(0);
    }
  }

  lemma FloorLog2Unique(a: real, e: int)
    requires a > 0.0 && Pow2(e) <= a < Pow2(e + 1)
    ensures FloorLog2(a) == e
  {
    var f := FloorLog2(a);
    FloorLog2Brackets(a);
    if f < e {
      Pow2Monotone(f + 1, e);
    } else if e < f {
      Pow2Monotone(e + 1, f);
    }
  }

  // ----- one block ------------------------------------------------------------------------------

  const EMIN: int := -126

  function MaxAbs(b: seq<real>): (m: real)
    ensures m >= 0.0
    ensures forall i :: 0 <= i < |b| ==> Abs(b[i]) <= m
    ensures m > 0.0 ==> exists i :: 0 <= i < |b| && Abs(b[i]) == m
  {
    if b == [] then 0.0 else
    var m := MaxAbs(b[1..]);
    assert forall i :: 1 <= i < |b| ==> b[i] == b[1..][i - 1];
    assert Abs(b[0]) > m ==> Abs(b[0]) == Larger(Abs(b[0]), m);
    Larger(Abs(b[0]), m)
  }

  function ClampedMax(b: seq<real>): (m: real)
    ensures m > 0.0
  {
    Larger(MaxAbs(b), Pow2(EMIN))
  }

  function SharedExponent(b: seq<real>): int {
    FloorLog2(ClampedMax(b)) - 2
  }

  function SharedScale(b: seq<real>): (s: real)
    ensures s > 0.0
  {
    Pow2(SharedExponent(b))
  }

  function QuantizeBlock(b: seq<real>): (q: seq<real>)
    ensures |q| == |b|
  {
    var s := SharedScale(b);
    seq(|b|, i requires 0 <= i < |b| => E2m1(b[i] / s) * s)
  }

  /** q is a quantization of b, whichever way ties went. */
  ghost predicate Quantizes(b: seq<real>, q: seq<real>) {
    |q| == |b| && forall i :: 0 <= i < |b| ==> Element(b[i], SharedScale(b), q[i])
  }

  lemma BlockQuantizes(b: seq<real>)
    ensures Quantizes(b, QuantizeBlock(b))
  {
    hide Element, E2m1, SharedScale;
    forall i | 0 <= i < |b|
      ensures Element(b[i], SharedScale(b), QuantizeBlock(b)[i])
    {
      OwnRounding(b[i], SharedScale(b), QuantizeBlock(b)[i]);
    }
  }

  lemma OwnRounding(v: real, s: real, q: real)
    requires s > 0.0 && q == E2m1(v / s) * s
    ensures Element(v, s, q)
  {
    hide Abs, Sign, Smaller, IsNearest, Decode;
    assert ElementAt(v, s, q, NearestIndex(E2M1, Smaller(Abs(v / s), 6.0)));
  }

  /** The shared scale puts the block's largest magnitude between 4 and 8. */
  lemma ScaleBrackets(b: seq<real>)
    ensures 4.0 * SharedScale(b) == Pow2(SharedExponent(b) + 2)
    ensures 4.0 * SharedScale(b) <= ClampedMax(b) < 8.0 * SharedScale(b)
    ensures ClampedMax(b) == Larger(MaxAbs(b), Pow2(-126))
  {
    var e := SharedExponent(b);
    FloorLog2Brackets(ClampedMax(b));
    Pow2Step(e);
    Pow2Step(e + 1);
    Pow2Step(e + 2);
  }

  /** The rounding of one magnitude, from the eight distances. */
  lemma MagnitudeBounds(a: real, i: nat)
    requires 0.0 <= a < 8.0 && IsNearest(E2M1, Smaller(a, 6.0), i)
    ensures Abs(a - E2M1[i]) <= Larger(a, 1.0) / 4.0
    ensures 0.0 <= E2M1[i] <= 6.0
    ensures a >= 4.0 ==> E2M1[i] >= 4.0
  {
    var y := Smaller(a, 6.0);
    assert Abs(y - E2M1[i]) <= Abs(y - E2M1[0]);
    assert Abs(y - E2M1[i]) <= Abs(y - E2M1[1]);
    assert Abs(y - E2M1[i]) <= Abs(y - E2M1[2]);
    assert Abs(y - E2M1[i]) <= Abs(y - E2M1[3]);
    assert Abs(y - E2M1[i]) <= Abs(y - E2M1[4]);
    assert Abs(y - E2M1[i]) <= Abs(y - E2M1[5]);
    assert Abs(y - E2M1[i]) <= Abs(y - E2M1[6]);
    assert Abs(y - E2M1[i]) <= Abs(y - E2M1[7]);
  }

  lemma QuotientMagnitude(x: real, s: real, q: real)
    requires s > 0.0 && q == x / s
    ensures x == q * s && Abs(x) == Abs(q) * s && Sign(q) == Sign(x)
  {
    assert q * s == x;
    if q > 0.0 {
      PositiveProduct(q, s);
    } else if q < 0.0 {
      PositiveProduct(-q, s);
    }
  }

  /** What rounding one element under a scale guarantees. */
  ghost predicate WellRounded(v: real, s: real, q: real) {
    && Abs(v - q) <= Larger(Abs(v), s) / 4.0
    && (q == 0.0 || Sign(q) == Sign(v))
    && Abs(q) <= 6.0 * s
    && (Abs(v) >= 4.0 * s ==> Abs(q) >= 4.0 * s)
  }

  lemma SignedProduct(m: real, sign: real, s: real, q: real)
    requires q == m * sign * s
    ensures sign == 1.0 ==> q == m * s
    ensures sign == -1.0 ==> -q == m * s
    ensures sign == 0.0 ==> q == 0.0
  {
  }

  lemma QuotientInRange(v: real, s: real, x: real)
    requires s > 0.0 && x == v / s && Abs(v) < 8.0 * s
    ensures 0.0 <= Abs(x) < 8.0
  {
    QuotientMagnitude(v, s, x);
    CancelStrict(s, Abs(x), 8.0, Abs(v));
  }

  lemma ElementWellRounded(v: real, s: real, q: real)
    requires Element(v, s, q) && Abs(v) < 8.0 * s
    ensures WellRounded(v, s, q)
  {
    hide Decode, WellRounded, Abs, Smaller, Larger;
    var k: nat :| ElementAt(v, s, q, k);
    var x := v / s;
    QuotientInRange(v, s, x);
    MagnitudeBounds(Abs(x), k);
    DecodedWellRounded(v, x, s, k, Decode(k, x), q);
  }

  lemma DecodedWellRounded(v: real, x: real, s: real, k: nat, r: real, q: real)
    requires s > 0.0 && x == v / s && k < |E2M1| && r == Decode(k, x) && q == r * s
    requires 0.0 <= E2M1[k] <= 6.0 && Abs(Abs(x) - E2M1[k]) <= Larger(Abs(x), 1.0) / 4.0
    requires Abs(x) >= 4.0 ==> E2M1[k] >= 4.0
    ensures WellRounded(v, s, q)
  {
    hide WellRounded, Abs, Larger;
    SignedWellRounded(v, x, s, E2M1[k], q);
  }

  lemma SignedWellRounded(v: real, x: real, s: real, m: real, q: real)
    requires s > 0.0 && x == v / s && q == m * Sign(x) * s
    requires 0.0 <= m <= 6.0 && Abs(Abs(x) - m) <= Larger(Abs(x), 1.0) / 4.0 && (Abs(x) >= 4.0 ==> m >= 4.0)
    ensures WellRounded(v, s, q)
  {
    hide WellRounded;
    QuotientMagnitude(v, s, x);
    SignedProduct(m, Sign(x), s, q);
    if v == 0.0 {
      ZeroWellRounded(s);
    } else {
      MagnitudeWellRounded(Abs(v), Abs(x), s, m, if v < 0.0 then -q else q);
      Mirror(v, s, q);
    }
  }

  lemma ZeroWellRounded(s: real)
    requires s > 0.0
    ensures WellRounded(0.0, s, 0.0)
  {
  }

  lemma Mirror(v: real, s: real, q: real)
    requires v != 0.0 && WellRounded(Abs(v), s, if v < 0.0 then -q else q)
    ensures WellRounded(v, s, q)
  {
  }

  lemma CancelStrict(s: real, a: real, b: real, x: real)
    requires s > 0.0 && x == a * s && x < b * s
    ensures a < b
  {
    if a >= b {
      ScaledBound(s, b, a);
    }
  }

  lemma CancelAtLeast(s: real, a: real, b: real, xa: real, xb: real)
    requires s > 0.0 && xa == a * s && xb == b * s && xa >= xb
    ensures a >= b
  {
    if a < b {
      PositiveProduct(s, b - a);
    }
  }

  lemma ProductBound(x: real, y: real, s: real, xs: real, ys: real)
    requires s > 0.0 && x <= y && xs == x * s && ys == y * s
    ensures xs <= ys
  {
    ScaledBound(s, x, y);
  }

  lemma MissOfMagnitude(v: real, a: real, s: real, m: real, q: real)
    requires s > 0.0 && v == a * s && q == m * s && Abs(a - m) <= Larger(a, 1.0) / 4.0
    ensures Abs(v - q) <= Larger(v, s) / 4.0
  {
    var b := Larger(a, 1.0);
    assert (a - m) * s == v - q;
    assert (m - a) * s == q - v;
    assert (b / 4.0) * s == (b * s) / 4.0;
    ProductBound(a - m, b / 4.0, s, v - q, (b * s) / 4.0);
    ProductBound(m - a, b / 4.0, s, q - v, (b * s) / 4.0);
    ProductBound(a, b, s, v, b * s);
    if a < 1.0 {
      assert b * s == s;
    } else {
      assert b * s == v;
    }
  }

  lemma MagnitudeWellRounded(v: real, a: real, s: real, m: real, q: real)
    requires s > 0.0 && a > 0.0 && v > 0.0 && v == a * s && q == m * s
    requires 0.0 <= m <= 6.0 && Abs(a - m) <= Larger(a, 1.0) / 4.0 && (a >= 4.0 ==> m >= 4.0)
    ensures WellRounded(v, s, q)
  {
    MissOfMagnitude(v, a, s, m, q);
    ProductBound(0.0, m, s, 0.0, q);
    ProductBound(m, 6.0, s, q, 6.0 * s);
    if v >= 4.0 * s {
      CancelAtLeast(s, a, 4.0, v, 4.0 * s);
      ProductBound(4.0, m, s, 4.0 * s, q);
    }
  }

  lemma BelowEightScales(b: seq<real>, v: real)
    requires Abs(v) <= MaxAbs(b)
    ensures Abs(v) < 8.0 * SharedScale(b)
  {
    ScaleBrackets(b);
  }

  /** Every element of a quantized block is within a quarter of the larger of itself and the scale,
      keeps its sign, lands at most 6 scales from zero, and stays 4 scales away when it was. */
  lemma ElementBound(b: seq<real>, q: seq<real>, i: nat)
    requires Quantizes(b, q) && i < |b|
    ensures WellRounded(b[i], SharedScale(b), q[i])
  {
    BelowEightScales(b, b[i]);
    ElementWellRounded(b[i], SharedScale(b), q[i]);
  }

  lemma ScaledDistance(s: real, a: real, m: real, c: real, v: real, q: real, w: real)
    requires s > 0.0 && v == a * s && q == m * s && w == c * s && Abs(a - m) <= Abs(a - c)
    ensures Abs(v - q) <= Abs(v - w)
  {
    hide Abs;
    ScaledGap(s, a, m, v, q);
    ScaledGap(s, a, c, v, w);
    ScaledBound(s, Abs(a - m), Abs(a - c));
  }

  lemma ScaledGap(s: real, a: real, m: real, v: real, q: real)
    requires s > 0.0 && v == a * s && q == m * s
    ensures Abs(v - q) == s * Abs(a - m)
  {
    assert s * (a - m) == v - q && s * (m - a) == q - v;
    if a > m {
      PositiveProduct(s, a - m);
    } else if m > a {
      PositiveProduct(s, m - a);
    }
  }

  lemma InRange(x: real)
    requires Abs(x) <= 6.0
    ensures Smaller(Abs(x), 6.0) == Abs(x)
  {
  }

  lemma RoundedInRange(v: real, s: real, q: real, k: nat, c: nat, x: real)
    requires ElementAt(v, s, q, k) && Abs(v) <= 6.0 * s && c < |E2M1| && x == v / s
    ensures k < |E2M1| && E2M1[k] >= 0.0 && E2M1[c] >= 0.0
    ensures q == E2M1[k] * Sign(x) * s && Abs(Abs(x) - E2M1[k]) <= Abs(Abs(x) - E2M1[c])
  {
    hide Abs, Smaller, Sign;
    QuotientMagnitude(v, s, x);
    CancelAtLeast(s, 6.0, Abs(x), 6.0 * s, Abs(v));
    InRange(x);
  }

  /** Up to 6 scales no value the format can represent under this scale, of either sign, is closer to the
      element than its rounding. */
  lemma ElementNearest(v: real, s: real, q: real, c: nat, w: real)
    requires Element(v, s, q) && Abs(v) <= 6.0 * s && c < |E2M1| && w == E2M1[c] * s
    ensures Abs(v - q) <= Abs(v - w) && Abs(v - q) <= Abs(v - (-w))
  {
    hide ElementAt, Abs, Sign;
    var k: nat :| ElementAt(v, s, q, k);
    PositiveScale(v, s, q, k);
    RoundedInRange(v, s, q, k, c, v / s);
    MagnitudeNearest(v, v / s, s, E2M1[k], E2M1[c], q, w);
  }

  lemma PositiveScale(v: real, s: real, q: real, k: nat)
    requires ElementAt(v, s, q, k)
    ensures s > 0.0
  {
  }

  lemma MagnitudeNearest(v: real, x: real, s: real, m: real, c: real, q: real, w: real)
    requires s > 0.0 && x == v / s && q == m * Sign(x) * s && w == c * s && m >= 0.0 && c >= 0.0
    requires Abs(Abs(x) - m) <= Abs(Abs(x) - c)
    ensures Abs(v - q) <= Abs(v - w) && Abs(v - q) <= Abs(v - (-w))
  {
    hide Abs;
    QuotientMagnitude(v, s, x);
    NonNegativeProduct(c, s);
    NonNegativeProduct(m, s);
    ScaledDistance(s, Abs(x), m, c, Abs(v), m * s, w);
    SignedProduct(m, Sign(x), s, q);
    NearestOfSign(v, Sign(v), m * s, q, w);
  }

  lemma NearestOfSign(v: real, sign: real, r: real, q: real, w: real)
    requires r >= 0.0 && w >= 0.0 && Abs(Abs(v) - r) <= Abs(Abs(v) - w) && sign == Sign(v)
    requires if sign == 1.0 then q == r else if sign == -1.0 then -q == r else q == 0.0
    ensures Abs(v - q) <= Abs(v - w) && Abs(v - q) <= Abs(v - (-w))
  {
  }

  lemma MaxOfRounded(b: seq<real>, q: seq<real>, s: real)
    requires s > 0.0 && |b| == |q| && forall i :: 0 <= i < |b| ==> WellRounded(b[i], s, q[i])
    ensures MaxAbs(q) <= 6.0 * s
    ensures MaxAbs(b) >= 4.0 * s ==> MaxAbs(q) >= 4.0 * s
  {
    if MaxAbs(q) > 0.0 {
      var i :| 0 <= i < |q| && Abs(q[i]) == MaxAbs(q);
      assert WellRounded(b[i], s, q[i]);
    }
    if MaxAbs(b) >= 4.0 * s {
      var i :| 0 <= i < |b| && Abs(b[i]) == MaxAbs(b);
      assert WellRounded(b[i], s, q[i]);
      assert Abs(q[i]) <= MaxAbs(q);
    }
  }

  lemma AllWellRounded(b: seq<real>, q: seq<real>)
    requires Quantizes(b, q)
    ensures |b| == |q| && forall i :: 0 <= i < |b| ==> WellRounded(b[i], SharedScale(b), q[i])
  {
    hide WellRounded, SharedScale, Element;
    forall i | 0 <= i < |b|
      ensures WellRounded(b[i], SharedScale(b), q[i])
    {
      ElementBound(b, q, i);
    }
  }

  /** A quantized block has the scale of the block it came from. */
  lemma ScaleRecomputed(b: seq<real>, q: seq<real>)
    requires Quantizes(b, q)
    ensures SharedScale(q) == SharedScale(b) && SharedExponent(q) == SharedExponent(b)
  {
    hide Pow2, Quantizes, FloorLog2, MaxAbs, WellRounded;
    var e := SharedExponent(b) + 2;
    ScaleBrackets(b);
    Pow2Step(e);
    AllWellRounded(b, q);
    MaxOfRounded(b, q, SharedScale(b));
    FloorLog2Unique(ClampedMax(q), e);
  }

  lemma CodewordRoundsToItself(k: nat, i: nat)
    requires k < |E2M1| && IsNearest(E2M1, E2M1[k], i)
    ensures i == k
  {
    assert Abs(E2M1[k] - E2M1[i]) <= Abs(E2M1[k] - E2M1[k]);
  }

  lemma SignOfRounded(m: real, x: real, r: real)
    requires m >= 0.0 && r == m * Sign(x)
    ensures r == 0.0 || (Abs(r) == m && Sign(r) == Sign(x))
  {
  }

  lemma SecondRounding(r: real, x: real, s: real, q: real, again: real, k: nat, j: nat)
    requires s > 0.0 && k < |E2M1| && r == Decode(k, x) && q == r * s && ElementAt(q, s, again, j)
    ensures again == q
  {
    QuotientOfProduct(r, s, q);
    SignOfRounded(E2M1[k], x, r);
    if r == 0.0 {
      CodewordRoundsToItself(0, j);
      SignedProduct(E2M1[j], Sign(q / s), s, again);
    } else {
      assert E2M1[k] <= 6.0;
      CodewordRoundsToItself(k, j);
    }
  }

  lemma RoundingAgain(v: real, s: real, q: real, again: real, k: nat, j: nat)
    requires ElementAt(v, s, q, k) && ElementAt(q, s, again, j)
    ensures again == q
  {
    hide Decode, Abs, Smaller, Sign;
    SecondRounding(Decode(k, v / s), v / s, s, q, again, k, j);
  }

  lemma QuotientOfProduct(r: real, s: real, q: real)
    requires s > 0.0 && q == r * s
    ensures q / s == r
  {
  }

  /** Quantizing a quantized block again returns it unchanged, whichever way ties went either time. */
  lemma Idempotent(b: seq<real>, q: seq<real>, again: seq<real>)
    requires Quantizes(b, q) && Quantizes(q, again)
    ensures again == q
  {
    hide ElementAt, SharedScale;
    ScaleRecomputed(b, q);
    var s := SharedScale(b);
    forall i | 0 <= i < |q|
      ensures again[i] == q[i]
    {
      assert Element(b[i], s, q[i]) && Element(q[i], s, again[i]);
      var k: nat :| ElementAt(b[i], s, q[i], k);
      var j: nat :| ElementAt(q[i], s, again[i], j);
      RoundingAgain(b[i], s, q[i], again[i], k, j);
    }
  }

  /** The smallest exponent the code can store is -128, one below the least e8m0 exponent -127; the
      scale is within the format's lower end exactly when the block reaches 2^-125. */
  lemma SmallestExponent(b: seq<real>)
    ensures SharedExponent(b) >= -128
    ensures SharedExponent(b) >= -127 <==> MaxAbs(b) >= Pow2(-125)
  {
    hide MaxAbs, FloorLog2, SharedScale;
    ScaleBrackets(b);
    var f := FloorLog2(ClampedMax(b));
    FloorLog2Brackets(ClampedMax(b));
    Pow2Step(EMIN);
    if f < EMIN {
      Pow2Monotone(f + 1, EMIN);
    }
    if MaxAbs(b) >= Pow2(-125) && f < -125 {
      Pow2Monotone(f + 1, -125);
    }
    if f >= -125 {
      Pow2Monotone(-125, f);
    }
  }

  // ----- a row of blocks ------------------------------------------------------------------------

  const BLOCK: nat := 32

  /** A row is cut into blocks of 32; a row of any other length is refused by the view. */
  function QuantizeRow(x: seq<real>): (q: seq<real>)
    requires |x| % BLOCK == 0
    ensures |q| == |x|
  {
    if x == [] then [] else QuantizeBlock(x[..BLOCK]) + QuantizeRow(x[BLOCK..])
  }

  /** Every block of 32 in the row is quantized under its own shared scale. */
  lemma {:induction false} RowBlocks(x: seq<real>, j: nat)
    requires |x| % 32 == 0 && 32 * (j + 1) <= |x|
    ensures Quantizes(x[32 * j..32 * (j + 1)], QuantizeRow(x)[32 * j..32 * (j + 1)])
  {
    hide Quantizes;
    var head, tail := QuantizeBlock(x[..BLOCK]), QuantizeRow(x[BLOCK..]);
    if j == 0 {
      BlockQuantizes(x[..BLOCK]);
      assert x[32 * j..32 * (j + 1)] == x[..BLOCK] && QuantizeRow(x)[32 * j..32 * (j + 1)] == head;
    } else {
      RowBlocks(x[BLOCK..], j - 1);
      assert x[32 * j..32 * (j + 1)] == x[BLOCK..][32 * (j - 1)..32 * j];
      assert QuantizeRow(x)[32 * j..32 * (j + 1)] == tail[32 * (j - 1)..32 * j];
    }
  }

  lemma RowElementIn(x: seq<real>, i: nat, b: seq<real>)
    requires |x| % 32 == 0 && i < |x| && b == x[i - i % 32..i - i % 32 + 32]
    ensures Element(x[i], SharedScale(b), QuantizeRow(x)[i]) && Abs(x[i]) <= MaxAbs(b)
  {
    hide Element, SharedScale, QuantizeRow, Abs;
    var j := i / 32;
    var q := QuantizeRow(x);
    assert 32 * j == i - i % 32 && b == x[32 * j..32 * (j + 1)];
    RowBlocks(x, j);
    assert b[i % 32] == x[i] && q[32 * j..32 * (j + 1)][i % 32] == q[i];
  }

  /** What the row holds at i is a nearest value of the format under the scale of its own block. */
  lemma RowElementNearest(x: seq<real>, i: nat, b: seq<real>, c: nat, w: real)
    requires |x| % 32 == 0 && i < |x| && b == x[i - i % 32..i - i % 32 + 32]
    requires c < |E2M1| && w == E2M1[c] * SharedScale(b) && Abs(x[i]) <= 6.0 * SharedScale(b)
    ensures Abs(x[i] - QuantizeRow(x)[i]) <= Abs(x[i] - w) && Abs(x[i] - QuantizeRow(x)[i]) <= Abs(x[i] - (-w))
  {
    hide SharedScale, QuantizeRow, Abs, Element, MaxAbs;
    RowElementIn(x, i, b);
    ElementNearest(x[i], SharedScale(b), QuantizeRow(x)[i], c, w);
  }

  /** Every element of the row is within a quarter of the larger of itself and the scale of its own block,
      keeps its sign, lands at most 6 scales from zero, and stays 4 scales away when it was. */
  lemma RowElementBound(x: seq<real>, i: nat, b: seq<real>)
    requires |x| % 32 == 0 && i < |x| && b == x[i - i % 32..i - i % 32 + 32]
    ensures Abs(x[i] - QuantizeRow(x)[i]) <= Larger(Abs(x[i]), SharedScale(b)) / 4.0
    ensures QuantizeRow(x)[i] == 0.0 || Sign(QuantizeRow(x)[i]) == Sign(x[i])
    ensures Abs(QuantizeRow(x)[i]) <= 6.0 * SharedScale(b)
    ensures Abs(x[i]) >= 4.0 * SharedScale(b) ==> Abs(QuantizeRow(x)[i]) >= 4.0 * SharedScale(b)
  {
    hide SharedScale, QuantizeRow, Abs, Sign, Larger, Element, MaxAbs;
    RowElementIn(x, i, b);
    BelowEightScales(b, x[i]);
    ElementWellRounded(x[i], SharedScale(b), QuantizeRow(x)[i]);
  }

  lemma {:induction false} RowIdempotent(x: seq<real>)
    requires |x| % BLOCK == 0
    ensures QuantizeRow(QuantizeRow(x)) == QuantizeRow(x)
  {
    if x != [] {
      var head, tail := QuantizeBlock(x[..BLOCK]), QuantizeRow(x[BLOCK..]);
      RowIdempotent(x[BLOCK..]);
      BlockQuantizes(x[..BLOCK]);
      BlockQuantizes(head);
      Idempotent(x[..BLOCK], head, QuantizeBlock(head));
      assert QuantizeRow(x) == head + tail;
      assert (head + tail)[..BLOCK] == head && (head + tail)[BLOCK..] == tail;
    }
  }
}

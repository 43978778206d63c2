/** The Lloyd-Max codebook iteration over weighted scalar samples. */
module LloydMax {
  import opened RealArithmetic
  import opened Wrappers

  ghost predicate Increasing(c: seq<real>) {
    forall i, j :: 0 <= i < j < |c| ==> c[i] < c[j]
  }

  ghost predicate Positive(w: seq<real>) {
    forall i :: 0 <= i < |w| ==> w[i] > 0.0
  }

  // ----- one iteration --------------------------------------------------------------------------

  function Midpoints(c: seq<real>): seq<real>
    requires c != []
  {
    seq(|c| - 1, i requires 0 <= i < |c| - 1 => (c[i + 1] + c[i]) / 2.0)
  }

  /** The first edge that is not below x: cells are open on the left and closed on the right. */
  function Bucketize(x: real, edges: seq<real>): (b: nat)
    ensures b <= |edges|
    ensures forall i :: 0 <= i < b ==> edges[i] < x
    ensures b < |edges| ==> x <= edges[b]
  {
    if edges == [] || x <= edges[0] then 0 else 1 + Bucketize(x, edges[1..])
  }

  function Assign(xs: seq<real>, c: seq<real>): (idx: seq<nat>)
    requires c != []
    ensures |idx| == |xs| && forall j :: 0 <= j < |idx| ==> idx[j] == Bucketize(xs[j], Midpoints(c)) < |c|
  {
    seq(|xs|, j requires 0 <= j < |xs| => Bucketize(xs[j], Midpoints(c)))
  }

  /** Entry `cell` of the scatter-add of `vals` by `idx`. */
  function SumAt(idx: seq<nat>, vals: seq<real>, cell: nat): real
    requires |idx| == |vals|
  {
    if idx == [] then 0.0 else (if idx[0] == cell then vals[0] else 0.0) + SumAt(idx[1..], vals[1..], cell)
  }

  function Times(w: seq<real>, xs: seq<real>): (t: seq<real>)
    requires |w| == |xs|
  {
    seq(|w|, j requires 0 <= j < |w| => w[j] * xs[j])
  }

  function Centroid(xs: seq<real>, w: seq<real>, idx: seq<nat>, cell: nat): real
    requires |xs| == |w| == |idx| && SumAt(idx, w, cell) != 0.0
  {
    SumAt(idx, Times(w, xs), cell) / SumAt(idx, w, cell)
  }

  /** The next codebook, or None where the source divides zero by zero. */
  function Update(xs: seq<real>, w: seq<real>, c: seq<real>): Option<seq<real>>
    requires |xs| == |w| && c != []
  {
    var idx := Assign(xs, c);
    if forall i :: 0 <= i < |c| ==> SumAt(idx, w, i) != 0.0 then
      Some(seq(|c|, i requires 0 <= i < |c| => Centroid(xs, w, idx, i)))
    else
      None
  }

  function Run(xs: seq<real>, w: seq<real>, c: seq<real>, rounds: nat): (r: Option<seq<real>>)
    requires |xs| == |w| && c != []
    ensures r.Some? ==> |r.value| == |c|
  {
    if rounds == 0 then Some(c) else
    var before := Run(xs, w, c, rounds - 1);
    if before.None? then None else Update(xs, w, before.value)
  }

  method LloydMax(xs: seq<real>, w: seq<real>, start: seq<real>, rounds: nat) returns (r: Option<seq<real>>)
    requires |xs| == |w| && start != []
    ensures r == Run(xs, w, start, rounds)
  {
    var c := start;
    for n := 0 to rounds
      invariant Run(xs, w, start, n) == Some(c) && |c| == |start|
    {
      var next := Update(xs, w, c);
      if next.None? {
        RunStaysUndefined(xs, w, start, n + 1, rounds);
        return None;
      }
      c := next.value;
    }
    return Some(c);
  }

  lemma {:induction false} RunStaysUndefined(xs: seq<real>, w: seq<real>, c: seq<real>, n: nat, m: nat)
    requires |xs| == |w| && c != [] && n <= m && Run(xs, w, c, n).None?
    ensures Run(xs, w, c, m).None?
  {
    if n < m {
      RunStaysUndefined(xs, w, c, n, m - 1);
    }
  }

  // ----- sums over cells ------------------------------------------------------------------------

  function Total(vals: seq<real>): real {
    if vals == [] then 0.0 else vals[0] + Total(vals[1..])
  }

  lemma {:induction false} TotalMonotone(p: seq<real>, q: seq<real>)
    requires |p| == |q| && forall j :: 0 <= j < |p| ==> p[j] <= q[j]
    ensures Total(p) <= Total(q)
  {
    if p != [] {
      TotalMonotone(p[1..], q[1..]);
    }
  }

  /** Values changed in one cell only change the total by the sum of the changes there. */
  lemma {:induction false} TotalOfChange(idx: seq<nat>, p: seq<real>, q: seq<real>, d: seq<real>, cell: nat)
    requires |idx| == |p| == |q| == |d|
    requires forall j :: 0 <= j < |p| ==> q[j] == if idx[j] == cell then p[j] + d[j] else p[j]
    ensures Total(q) == Total(p) + SumAt(idx, d, cell)
  {
    if p != [] {
      TotalOfChange(idx[1..], p[1..], q[1..], d[1..], cell);
    }
  }

  lemma {:induction false} SumAtMonotone(idx: seq<nat>, p: seq<real>, q: seq<real>, cell: nat, strict: bool)
    requires |idx| == |p| == |q|
    requires forall j :: 0 <= j < |p| && idx[j] == cell ==> p[j] <= q[j] && (strict ==> p[j] < q[j])
    ensures SumAt(idx, p, cell) <= SumAt(idx, q, cell)
    ensures strict && Occupied(idx, cell) ==> SumAt(idx, p, cell) < SumAt(idx, q, cell)
  {
    if p != [] {
      forall j | 0 <= j < |p[1..]| && idx[1..][j] == cell
        ensures p[1..][j] <= q[1..][j] && (strict ==> p[1..][j] < q[1..][j])
      {
        assert idx[j + 1] == cell;
      }
      SumAtMonotone(idx[1..], p[1..], q[1..], cell, strict);
    }
  }

  lemma {:induction false} SumAtScaled(idx: seq<nat>, a: real, p: seq<real>, ap: seq<real>, cell: nat)
    requires |idx| == |p| == |ap| && forall j :: 0 <= j < |p| ==> ap[j] == a * p[j]
    ensures SumAt(idx, ap, cell) == a * SumAt(idx, p, cell)
  {
    if p != [] {
      SumAtScaled(idx[1..], a, p[1..], ap[1..], cell);
    }
  }

  lemma {:induction false} SumAtAdd(idx: seq<nat>, p: seq<real>, q: seq<real>, r: seq<real>, cell: nat)
    requires |idx| == |p| == |q| == |r| && forall j :: 0 <= j < |p| ==> r[j] == p[j] + q[j]
    ensures SumAt(idx, r, cell) == SumAt(idx, p, cell) + SumAt(idx, q, cell)
  {
    if p != [] {
      SumAtAdd(idx[1..], p[1..], q[1..], r[1..], cell);
    }
  }

  function Scaled(a: real, p: seq<real>): seq<real> {
    seq(|p|, j requires 0 <= j < |p| => a * p[j])
  }

  lemma ScaledSum(idx: seq<nat>, a: real, p: seq<real>, cell: nat) returns (sum: real)
    requires |idx| == |p|
    ensures sum == SumAt(idx, Scaled(a, p), cell) == a * SumAt(idx, p, cell)
  {
    SumAtScaled(idx, a, p, Scaled(a, p), cell);
    sum := SumAt(idx, Scaled(a, p), cell);
  }

  function Sum(p: seq<real>, q: seq<real>): seq<real>
    requires |p| == |q|
  {
    seq(|p|, j requires 0 <= j < |p| => p[j] + q[j])
  }

  // ----- distortion -----------------------------------------------------------------------------

  function CostOf(g: real, x: real, c: real): real {
    g * ((x - c) * (x - c))
  }

  function Costs(xs: seq<real>, w: seq<real>, idx: seq<nat>, c: seq<real>): seq<real>
    requires |xs| == |w| == |idx| && forall j :: 0 <= j < |idx| ==> idx[j] < |c|
  {
    seq(|xs|, j requires 0 <= j < |xs| => CostOf(w[j], xs[j], c[idx[j]]))
  }

  function Distortion(xs: seq<real>, w: seq<real>, idx: seq<nat>, c: seq<real>): real
    requires |xs| == |w| == |idx| && forall j :: 0 <= j < |idx| ==> idx[j] < |c|
  {
    Total(Costs(xs, w, idx, c))
  }

  /** What each sample's cost gains when its codeword moves: a times its weight plus b times its
      weighted value, where a and b are the two coefficients of the move. */
  function Moves(xs: seq<real>, w: seq<real>, a: real, b: real): (d: seq<real>)
    requires |xs| == |w|
    ensures |d| == |xs|
  {
    Sum(Scaled(a, w), Scaled(b, Times(w, xs)))
  }

  function QuadraticPart(u: real, v: real): real { v * v - u * u }

  function LinearPart(u: real, v: real): real { -2.0 * (v - u) }

  lemma MoveAt(xs: seq<real>, w: seq<real>, u: real, v: real, j: nat)
    requires |xs| == |w| && j < |xs|
    ensures CostOf(w[j], xs[j], v)
         == CostOf(w[j], xs[j], u) + Moves(xs, w, QuadraticPart(u, v), LinearPart(u, v))[j]
  {
  }

  function CellChange(mass: real, moment: real, a: real, b: real): real {
    a * mass + b * moment
  }

  lemma MovesSplit(xs: seq<real>, w: seq<real>, idx: seq<nat>, a: real, b: real, m: nat)
    requires |xs| == |w| == |idx|
    ensures SumAt(idx, Moves(xs, w, a, b), m) == SumAt(idx, Scaled(a, w), m) + SumAt(idx, Scaled(b, Times(w, xs)), m)
  {
    SumAtAdd(idx, Scaled(a, w), Scaled(b, Times(w, xs)), Moves(xs, w, a, b), m);
  }

  lemma MovesSum(xs: seq<real>, w: seq<real>, idx: seq<nat>, a: real, b: real, m: nat)
    requires |xs| == |w| == |idx|
    ensures SumAt(idx, Moves(xs, w, a, b), m) == CellChange(SumAt(idx, w, m), SumAt(idx, Times(w, xs), m), a, b)
  {
    MovesSplit(xs, w, idx, a, b, m);
    var p := ScaledSum(idx, a, w, m);
    var q := ScaledSum(idx, b, Times(w, xs), m);
  }

  /** Moving one codeword changes the distortion by a quadratic in its cell's mass and moment. */
  lemma MoveOneCodeword(xs: seq<real>, w: seq<real>, idx: seq<nat>, c: seq<real>, m: nat, v: real)
    requires |xs| == |w| == |idx| && m < |c| && forall j :: 0 <= j < |idx| ==> idx[j] < |c|
    ensures Distortion(xs, w, idx, c[m := v])
         == Distortion(xs, w, idx, c)
            + CellChange(SumAt(idx, w, m), SumAt(idx, Times(w, xs), m), QuadraticPart(c[m], v), LinearPart(c[m], v))
  {
    var before, after := Costs(xs, w, idx, c), Costs(xs, w, idx, c[m := v]);
    var a, b := QuadraticPart(c[m], v), LinearPart(c[m], v);
    var d := Moves(xs, w, a, b);
    forall j | 0 <= j < |xs|
      ensures after[j] == if idx[j] == m then before[j] + d[j] else before[j]
    {
      MoveAt(xs, w, c[m], v, j);
    }
    TotalOfChange(idx, before, after, d, m);
    MovesSum(xs, w, idx, a, b, m);
  }

  /** The first m codewords of c replaced by those of d. */
  function Mixed(c: seq<real>, d: seq<real>, m: nat): seq<real>
    requires |c| == |d| && m <= |c|
  {
    d[..m] + c[m..]
  }

  /** How much the recentred codewords gain, weighted by the mass of their cells. */
  function Gain(w: seq<real>, idx: seq<nat>, c: seq<real>, d: seq<real>, m: nat): real
    requires |w| == |idx| && |c| == |d| && m <= |c|
  {
    if m == 0 then 0.0 else
      Gain(w, idx, c, d, m - 1) + CostOf(SumAt(idx, w, m - 1), c[m - 1], d[m - 1])
  }

  lemma {:induction false} RecentreExactly(
    xs: seq<real>, w: seq<real>, idx: seq<nat>, c: seq<real>, d: seq<real>, m: nat)
    requires |xs| == |w| == |idx| && |c| == |d| && m <= |c| && forall j :: 0 <= j < |idx| ==> idx[j] < |c|
    requires forall i :: 0 <= i < |c| ==> SumAt(idx, w, i) != 0.0 && d[i] == Centroid(xs, w, idx, i)
    ensures Distortion(xs, w, idx, Mixed(c, d, m)) == Distortion(xs, w, idx, c) - Gain(w, idx, c, d, m)
  {
    if m == 0 {
      assert Mixed(c, d, 0) == c;
    } else {
      var before := Mixed(c, d, m - 1);
      RecentreExactly(xs, w, idx, c, d, m - 1);
      assert Mixed(c, d, m) == before[m - 1 := d[m - 1]];
      assert before[m - 1] == c[m - 1];
      MoveOneCodeword(xs, w, idx, before, m - 1, d[m - 1]);
      CentroidIdentity(SumAt(idx, w, m - 1), SumAt(idx, Times(w, xs), m - 1), c[m - 1], d[m - 1]);
    }
  }

  lemma CentroidIdentity(mass: real, moment: real, u: real, v: real)
    requires mass != 0.0 && v == moment / mass
    ensures CellChange(mass, moment, QuadraticPart(u, v), LinearPart(u, v)) == -CostOf(mass, u, v)
  {
    assert moment == mass * v;
    assert -2.0 * (v - u) * moment == -2.0 * (mass * (v * v)) + 2.0 * (mass * (v * u));
    assert mass * ((u - v) * (u - v)) == mass * (v * v) - 2.0 * (mass * (v * u)) + mass * (u * u);
    assert (v * v - u * u) * mass == mass * (v * v) - mass * (u * u);
  }

  lemma NearerAssignmentCostsLess(xs: seq<real>, w: seq<real>, idx: seq<nat>, near: seq<nat>, c: seq<real>)
    requires |xs| == |w| == |idx| == |near| && Positive(w)
    requires forall j :: 0 <= j < |idx| ==> idx[j] < |c| && near[j] < |c|
    requires forall j :: 0 <= j < |idx| ==> Abs(xs[j] - c[near[j]]) <= Abs(xs[j] - c[idx[j]])
    ensures Distortion(xs, w, near, c) <= Distortion(xs, w, idx, c)
  {
    forall j | 0 <= j < |xs|
      ensures CostOf(w[j], xs[j], c[near[j]]) <= CostOf(w[j], xs[j], c[idx[j]])
    {
      NearerCostsLess(w[j], xs[j], c[near[j]], c[idx[j]]);
    }
    TotalMonotone(Costs(xs, w, near, c), Costs(xs, w, idx, c));
  }

  lemma NearerCostsLess(g: real, x: real, near: real, far: real)
    requires g > 0.0 && Abs(x - near) <= Abs(x - far)
    ensures CostOf(g, x, near) <= CostOf(g, x, far)
  {
    SquareMonotone(x - near, x - far);
    ScaledBound(g, (x - near) * (x - near), (x - far) * (x - far));
  }

  /** Bucketizing on midpoints finds a nearest codeword. */
  lemma MidpointCellIsNearest(x: real, c: seq<real>, j: nat)
    requires c != [] && Increasing(c) && j < |c|
    ensures Abs(x - c[Bucketize(x, Midpoints(c))]) <= Abs(x - c[j])
  {
    var e := Midpoints(c);
    var b := Bucketize(x, e);
    if j < b {
      assert e[b - 1] < x;
      assert c[j] <= c[b - 1];
    } else if b < j {
      assert x <= e[b];
      assert c[b + 1] <= c[j];
    }
  }

  // ----- cells ----------------------------------------------------------------------------------

  ghost predicate Occupied(idx: seq<nat>, cell: nat) {
    exists j :: 0 <= j < |idx| && idx[j] == cell
  }

  lemma {:induction false} MassOfCell(idx: seq<nat>, w: seq<real>, cell: nat)
    requires |idx| == |w| && Positive(w)
    ensures SumAt(idx, w, cell) >= 0.0
    ensures SumAt(idx, w, cell) != 0.0 <==> Occupied(idx, cell)
  {
    if idx != [] {
      MassOfCell(idx[1..], w[1..], cell);
    }
  }

  /** Every sample of a cell is within the bounds, strictly above the lower one when `strict`. */
  ghost predicate CellWithin(xs: seq<real>, idx: seq<nat>, cell: nat, lo: real, hi: real, strict: bool)
    requires |xs| == |idx|
  {
    forall j :: 0 <= j < |idx| && idx[j] == cell ==> lo <= xs[j] <= hi && (strict ==> lo < xs[j])
  }

  /** The moment of a cell lies between its mass times any bounds on its samples. */
  lemma MomentBounds(xs: seq<real>, w: seq<real>, idx: seq<nat>, cell: nat, lo: real, hi: real, strict: bool)
    requires |xs| == |w| == |idx| && Positive(w) && CellWithin(xs, idx, cell, lo, hi, strict)
    ensures SumAt(idx, Scaled(lo, w), cell) <= SumAt(idx, Times(w, xs), cell) <= SumAt(idx, Scaled(hi, w), cell)
    ensures strict && Occupied(idx, cell) ==>
              SumAt(idx, Scaled(lo, w), cell) < SumAt(idx, Times(w, xs), cell)
  {
    forall j | 0 <= j < |idx| && idx[j] == cell
      ensures Scaled(lo, w)[j] <= Times(w, xs)[j] <= Scaled(hi, w)[j]
      ensures strict ==> Scaled(lo, w)[j] < Times(w, xs)[j]
    {
    }
    SumAtMonotone(idx, Scaled(lo, w), Times(w, xs), cell, strict);
    SumAtMonotone(idx, Times(w, xs), Scaled(hi, w), cell, false);
  }

  lemma CentroidBounds(xs: seq<real>, w: seq<real>, idx: seq<nat>, cell: nat, lo: real, hi: real, strict: bool)
    requires |xs| == |w| == |idx| && Positive(w) && SumAt(idx, w, cell) != 0.0
    requires CellWithin(xs, idx, cell, lo, hi, strict)
    ensures lo <= Centroid(xs, w, idx, cell) <= hi
    ensures strict ==> lo < Centroid(xs, w, idx, cell)
  {
    MassOfCell(idx, w, cell);
    MomentBounds(xs, w, idx, cell, lo, hi, strict);
    MeanAtLeast(idx, w, Times(w, xs), cell, lo);
    MeanAtMost(idx, w, Times(w, xs), cell, hi);
  }

  lemma MeanAtLeast(idx: seq<nat>, w: seq<real>, wx: seq<real>, cell: nat, lo: real)
    requires |idx| == |w| == |wx| && SumAt(idx, w, cell) > 0.0
    requires SumAt(idx, Scaled(lo, w), cell) <= SumAt(idx, wx, cell)
    ensures lo <= SumAt(idx, wx, cell) / SumAt(idx, w, cell)
    ensures SumAt(idx, Scaled(lo, w), cell) < SumAt(idx, wx, cell) ==> lo < SumAt(idx, wx, cell) / SumAt(idx, w, cell)
  {
    var below := ScaledSum(idx, lo, w, cell);
  }

  lemma MeanAtMost(idx: seq<nat>, w: seq<real>, wx: seq<real>, cell: nat, hi: real)
    requires |idx| == |w| == |wx| && SumAt(idx, w, cell) > 0.0
    requires SumAt(idx, wx, cell) <= SumAt(idx, Scaled(hi, w), cell)
    ensures SumAt(idx, wx, cell) / SumAt(idx, w, cell) <= hi
  {
    var above := ScaledSum(idx, hi, w, cell);
    QuotientAtMost(SumAt(idx, wx, cell), SumAt(idx, w, cell), hi, above);
  }

  /** A step is defined exactly when every cell holds a sample. */
  lemma UpdateDefined(xs: seq<real>, w: seq<real>, c: seq<real>)
    requires |xs| == |w| && c != [] && Positive(w)
    ensures Update(xs, w, c).Some? <==> forall i :: 0 <= i < |c| ==> Occupied(Assign(xs, c), i)
  {
    var idx := Assign(xs, c);
    forall i | 0 <= i < |c|
      ensures SumAt(idx, w, i) != 0.0 <==> Occupied(idx, i)
    {
      MassOfCell(idx, w, i);
    }
  }

  lemma UpdateIncreasing(xs: seq<real>, w: seq<real>, c: seq<real>)
    requires |xs| == |w| && c != [] && Positive(w) && Increasing(c) && Update(xs, w, c).Some?
    ensures Increasing(Update(xs, w, c).value)
  {
    var idx, e, d := Assign(xs, c), Midpoints(c), Update(xs, w, c).value;
    forall i, j | 0 <= i < j < |c|
      ensures d[i] < d[j]
    {
      CentroidBelow(xs, w, idx, i, e[i]);
      assert e[i] <= e[j - 1] by { MidpointsOrdered(c, i, j - 1); }
      forall s | 0 <= s < |idx| && idx[s] == j
        ensures e[j - 1] < xs[s]
      {
      }
      CentroidAbove(xs, w, idx, j, e[j - 1], true);
    }
  }

  lemma MidpointsOrdered(c: seq<real>, i: nat, j: nat)
    requires Increasing(c) && i <= j < |c| - 1
    ensures Midpoints(c)[i] <= Midpoints(c)[j]
  {
    assert c[i] <= c[j] && c[i + 1] <= c[j + 1];
  }

  lemma CentroidBelow(xs: seq<real>, w: seq<real>, idx: seq<nat>, cell: nat, hi: real)
    requires |xs| == |w| == |idx| && Positive(w) && SumAt(idx, w, cell) != 0.0
    requires forall j :: 0 <= j < |idx| && idx[j] == cell ==> xs[j] <= hi
    ensures Centroid(xs, w, idx, cell) <= hi
  {
    CentroidBounds(xs, w, idx, cell, Least(xs, hi), hi, false);
  }

  lemma CentroidAbove(xs: seq<real>, w: seq<real>, idx: seq<nat>, cell: nat, lo: real, strict: bool)
    requires |xs| == |w| == |idx| && Positive(w) && SumAt(idx, w, cell) != 0.0
    requires forall j :: 0 <= j < |idx| && idx[j] == cell ==> lo <= xs[j] && (strict ==> lo < xs[j])
    ensures lo <= Centroid(xs, w, idx, cell)
    ensures strict ==> lo < Centroid(xs, w, idx, cell)
  {
    CentroidBounds(xs, w, idx, cell, lo, Greatest(xs, lo), strict);
  }

  function Least(xs: seq<real>, start: real): (m: real)
    ensures m <= start && forall j :: 0 <= j < |xs| ==> m <= xs[j]
  {
    if xs == [] then start else
    var m := Least(xs[1..], start);
    assert forall j :: 1 <= j < |xs| ==> xs[j] == xs[1..][j - 1];
    if xs[0] < m then xs[0] else m
  }

  function Greatest(xs: seq<real>, start: real): (m: real)
    ensures m >= start && forall j :: 0 <= j < |xs| ==> m >= xs[j]
  {
    if xs == [] then start else
    var m := Greatest(xs[1..], start);
    assert forall j :: 1 <= j < |xs| ==> xs[j] == xs[1..][j - 1];
    if xs[0] > m then xs[0] else m
  }

  // ----- descent --------------------------------------------------------------------------------

  function Cost(xs: seq<real>, w: seq<real>, c: seq<real>): real
    requires |xs| == |w| && c != []
  {
    Distortion(xs, w, Assign(xs, c), c)
  }

  lemma {:induction false} GainNonNegative(w: seq<real>, idx: seq<nat>, c: seq<real>, d: seq<real>, m: nat)
    requires |w| == |idx| && |c| == |d| && m <= |c| && Positive(w)
    ensures Gain(w, idx, c, d, m) >= 0.0
  {
    if m > 0 {
      GainNonNegative(w, idx, c, d, m - 1);
      MassOfCell(idx, w, m - 1);
      CostNonNegative(SumAt(idx, w, m - 1), c[m - 1], d[m - 1]);
    }
  }

  lemma CostNonNegative(g: real, x: real, c: real)
    requires g >= 0.0
    ensures CostOf(g, x, c) >= 0.0
  {
    ScaledBound(g, 0.0, (x - c) * (x - c));
  }

  lemma RecentredCost(xs: seq<real>, w: seq<real>, c: seq<real>)
    requires |xs| == |w| && c != [] && Update(xs, w, c).Some?
    ensures var idx, d := Assign(xs, c), Update(xs, w, c).value;
            Distortion(xs, w, idx, d) == Cost(xs, w, c) - Gain(w, idx, c, d, |c|)
  {
    var idx, d := Assign(xs, c), Update(xs, w, c).value;
    RecentreExactly(xs, w, idx, c, d, |c|);
    assert Mixed(c, d, |c|) == d;
  }

  lemma ReassignedCost(xs: seq<real>, w: seq<real>, idx: seq<nat>, d: seq<real>)
    requires |xs| == |w| == |idx| && d != [] && Positive(w) && Increasing(d)
    requires forall j :: 0 <= j < |idx| ==> idx[j] < |d|
    ensures Cost(xs, w, d) <= Distortion(xs, w, idx, d)
  {
    var near := Assign(xs, d);
    forall j | 0 <= j < |xs|
      ensures Abs(xs[j] - d[near[j]]) <= Abs(xs[j] - d[idx[j]])
    {
      MidpointCellIsNearest(xs[j], d, idx[j]);
    }
    NearerAssignmentCostsLess(xs, w, idx, near, d);
  }

  /** One iteration keeps the codebook increasing and lowers the distortion by at least the
      mass-weighted square of how far the codewords moved. */
  lemma UpdateDescends(xs: seq<real>, w: seq<real>, c: seq<real>)
    requires |xs| == |w| && c != [] && Positive(w) && Increasing(c) && Update(xs, w, c).Some?
    ensures var d := Update(xs, w, c).value;
            && Increasing(d)
            && Cost(xs, w, d) <= Cost(xs, w, c) - Gain(w, Assign(xs, c), c, d, |c|) <= Cost(xs, w, c)
  {
    var idx, d := Assign(xs, c), Update(xs, w, c).value;
    UpdateIncreasing(xs, w, c);
    RecentredCost(xs, w, c);
    ReassignedCost(xs, w, idx, d);
    GainNonNegative(w, idx, c, d, |c|);
  }

  lemma UpdateNeverCostsMore(xs: seq<real>, w: seq<real>, c: seq<real>)
    requires |xs| == |w| && c != [] && Positive(w) && Increasing(c) && Update(xs, w, c).Some?
    ensures Increasing(Update(xs, w, c).value) && Cost(xs, w, Update(xs, w, c).value) <= Cost(xs, w, c)
  {
    UpdateDescends(xs, w, c);
  }

  lemma {:induction false} RunIncreasing(xs: seq<real>, w: seq<real>, c: seq<real>, n: nat)
    requires |xs| == |w| && c != [] && Positive(w) && Increasing(c) && Run(xs, w, c, n).Some?
    ensures Increasing(Run(xs, w, c, n).value)
  {
    if n > 0 {
      RunIncreasing(xs, w, c, n - 1);
      UpdateNeverCostsMore(xs, w, Run(xs, w, c, n - 1).value);
    }
  }

  lemma RunStep(xs: seq<real>, w: seq<real>, c: seq<real>, m: nat)
    requires |xs| == |w| && c != [] && m > 0 && Run(xs, w, c, m).Some?
    ensures Run(xs, w, c, m - 1).Some? && Run(xs, w, c, m) == Update(xs, w, Run(xs, w, c, m - 1).value)
  {
    hide Update;
  }

  /** Over every run: as long as the run is defined the distortion never rises, from any round to any
      later one. */
  lemma {:induction false} RunDescends(xs: seq<real>, w: seq<real>, c: seq<real>, n: nat, m: nat)
    requires |xs| == |w| && c != [] && Positive(w) && Increasing(c) && n <= m && Run(xs, w, c, m).Some?
    ensures Run(xs, w, c, n).Some?
    ensures Cost(xs, w, Run(xs, w, c, m).value) <= Cost(xs, w, Run(xs, w, c, n).value)
  {
    if n < m {
      hide Cost, Run, Positive, Increasing;
      OneRoundDescends(xs, w, c, m);
      RunDescends(xs, w, c, n, m - 1);
    }
  }

  lemma OneRoundDescends(xs: seq<real>, w: seq<real>, c: seq<real>, m: nat)
    requires |xs| == |w| && c != [] && Positive(w) && Increasing(c) && m > 0 && Run(xs, w, c, m).Some?
    ensures Run(xs, w, c, m - 1).Some?
    ensures Cost(xs, w, Run(xs, w, c, m).value) <= Cost(xs, w, Run(xs, w, c, m - 1).value)
  {
    hide Cost, Update, Increasing, Positive, Run;
    RunStep(xs, w, c, m);
    RunIncreasing(xs, w, c, m - 1);
    UpdateNeverCostsMore(xs, w, Run(xs, w, c, m - 1).value);
  }

  /** Occupation is not kept in general: these samples and this codebook fill all three cells, and the
      recentred codebook leaves its middle cell empty. */
  lemma OccupationCanBeLost()
    ensures var xs, w, c := [-1.0, 0.0, 10.0, 11.0], [1.0, 1.0, 1.0, 1.0], [-6.0, 5.0, 16.0];
            Run(xs, w, c, 1) == Some([-1.0, 5.0, 11.0]) && Run(xs, w, c, 2).None?
  {
    var xs, w, c := [-1.0, 0.0, 10.0, 11.0], [1.0, 1.0, 1.0, 1.0], [-6.0, 5.0, 16.0];
    var d := [-1.0, 5.0, 11.0];
    assert Midpoints(c) == [-0.5, 10.5];
    BucketOfTwo(-0.5, 10.5);
    assert Assign(xs, c) == [0, 1, 1, 2];
    assert Times(w, xs) == xs;
    SumOfFour([0, 1, 1, 2], w);
    SumOfFour([0, 1, 1, 2], xs);
    assert Update(xs, w, c).value == d;
    assert Midpoints(d) == [2.0, 8.0];
    BucketOfTwo(2.0, 8.0);
    assert Assign(xs, d) == [0, 0, 2, 2];
    SumOfFour([0, 0, 2, 2], w);
    assert Run(xs, w, c, 0) == Some(c);
    assert SumAt(Assign(xs, d), w, 1) == 0.0;
  }

  lemma BucketOfTwo(a: real, b: real)
    ensures forall x: real :: Bucketize(x, [a, b]) == if x <= a then 0 else if x <= b then 1 else 2
  {
    assert [a, b][1..] == [b] && [b][1..] == [];
  }

  lemma SumOfFour(idx: seq<nat>, vals: seq<real>)
    requires |idx| == |vals| == 4
    ensures forall cell: nat ::
              SumAt(idx, vals, cell) == (
                (if idx[0] == cell then vals[0] else 0.0) + (if idx[1] == cell then vals[1] else 0.0)
                + (if idx[2] == cell then vals[2] else 0.0) + (if idx[3] == cell then vals[3] else 0.0))
  {
    forall cell: nat
      ensures SumAt(idx, vals, cell) == (
        (if idx[0] == cell then vals[0] else 0.0) + (if idx[1] == cell then vals[1] else 0.0)
        + (if idx[2] == cell then vals[2] else 0.0) + (if idx[3] == cell then vals[3] else 0.0))
    {
      var i1, v1 := idx[1..], vals[1..];
      var i2, v2 := i1[1..], v1[1..];
      var i3, v3 := i2[1..], v2[1..];
      assert SumAt(i3[1..], v3[1..], cell) == 0.0;
      assert SumAt(i2, v2, cell) == (if idx[2] == cell then vals[2] else 0.0) + SumAt(i3, v3, cell);
    }
  }
}

/** The gated-delta recurrence on one value head, and how a stored error evolves under it. */
module GatedDelta {
  import opened RealArithmetic
  import opened Vectors

  type Matrix = seq<Vec>

  /** One token's inputs: decay is exp(g) and beta a sigmoid, both kept as the reals they are. */
  datatype Token = Token(q: Vec, k: Vec, v: Vec, decay: real, beta: real)

  /** A state has one row per value coordinate, each as long as a key. */
  predicate Fits(S: Matrix, x: Token) {
    |S| == |x.v| && |x.q| == |x.k| && forall i :: 0 <= i < |S| ==> |S[i]| == |x.k|
  }

  /** What the source's gates guarantee: exp of a negative number, a sigmoid, a normalized key. */
  ghost predicate Gated(x: Token) {
    0.0 < x.decay <= 1.0 && 0.0 <= x.beta <= 1.0 && |x.q| == |x.k| && Dot(x.k, x.k) <= 1.0
  }

  function ScaleRows(r: real, S: Matrix): (T: Matrix)
    ensures |T| == |S| && forall i :: 0 <= i < |S| ==> |T[i]| == |S[i]|
  {
    seq(|S|, i requires 0 <= i < |S| => Scale(r, S[i]))
  }

  function Apply(S: Matrix, x: Vec): (y: Vec)
    requires forall i :: 0 <= i < |S| ==> |S[i]| == |x|
    ensures |y| == |S|
  {
    seq(|S|, i requires 0 <= i < |S| => Dot(S[i], x))
  }

  function AddOuter(S: Matrix, u: Vec, k: Vec): (T: Matrix)
    requires |S| == |u| && forall i :: 0 <= i < |S| ==> |S[i]| == |k|
    ensures |T| == |S| && forall i :: 0 <= i < |S| ==> |T[i]| == |k|
  {
    seq(|S|, i requires 0 <= i < |S| => Add(S[i], Scale(u[i], k)))
  }

  /** The state after one token. */
  function Next(S: Matrix, x: Token): (T: Matrix)
    requires Fits(S, x)
    ensures Fits(T, x)
  {
    var decayed := ScaleRows(x.decay, S);
    var u := Scale(x.beta, Sub(x.v, Apply(decayed, x.k)));
    AddOuter(decayed, u, x.k)
  }

  /** One recurrence step: the output reads the state the token has already updated. */
  function RefStep(S: Matrix, x: Token): (r: (Vec, Matrix))
    requires Fits(S, x)
    ensures Fits(r.1, x) && |r.0| == |S|
  {
    var T := Next(S, x);
    (Apply(T, x.q), T)
  }

  // ----- one row --------------------------------------------------------------------------------

  /** How much of the key one row takes up: beta times what the decayed row misses of its value. */
  function Correction(beta: real, v: real, recalled: real): real {
    beta * (v - recalled)
  }

  function NextRow(s: Vec, v: real, x: Token): (t: Vec)
    requires |s| == |x.k|
    ensures |t| == |x.k|
  {
    var decayed := Scale(x.decay, s);
    Add(decayed, Scale(Correction(x.beta, v, Dot(decayed, x.k)), x.k))
  }

  lemma CorrectionAt(beta: real, v: Vec, recalled: Vec, i: nat)
    requires |v| == |recalled| && i < |v|
    ensures Scale(beta, Sub(v, recalled))[i] == Correction(beta, v[i], recalled[i])
  {
  }

  lemma NextIsRowwise(S: Matrix, x: Token, i: nat)
    requires Fits(S, x) && i < |S|
    ensures Next(S, x)[i] == NextRow(S[i], x.v[i], x)
  {
    hide Dot, Add, Correction;
    CorrectionAt(x.beta, x.v, Apply(ScaleRows(x.decay, S), x.k), i);
  }

  /** What a row recalls along y after a step: the decayed recall, corrected in proportion to k's part in y. */
  lemma RowRecall(s: Vec, v: real, x: Token, y: Vec)
    requires |s| == |x.k| == |y|
    ensures Dot(NextRow(s, v, x), y)
         == x.decay * Dot(s, y) + Correction(x.beta, v, x.decay * Dot(s, x.k)) * Dot(x.k, y)
  {
    hide Dot, Correction, Add, Scale;
    var decayed := Scale(x.decay, s);
    var c := Correction(x.beta, v, Dot(decayed, x.k));
    DotAdd(decayed, Scale(c, x.k), y);
    DotScale(x.decay, s, y);
    DotScale(x.decay, s, x.k);
    DotScale(c, x.k, y);
    assert NextRow(s, v, x) == Add(decayed, Scale(c, x.k));
    SameCorrection(x.beta, v, Dot(decayed, x.k), x.decay * Dot(s, x.k));
  }

  lemma SameCorrection(beta: real, v: real, p: real, q: real)
    requires p == q
    ensures Correction(beta, v, p) == Correction(beta, v, q)
  {
  }

  /** What the state left by a step answers to any y, and so what the step outputs for its query: the decayed
      answer, moved along the key towards the value. */
  lemma StepAnswers(S: Matrix, x: Token, y: Vec, i: nat)
    requires Fits(S, x) && |y| == |x.k| && i < |S|
    ensures Apply(RefStep(S, x).1, y)[i]
         == x.decay * Dot(S[i], y) + x.beta * (x.v[i] - x.decay * Dot(S[i], x.k)) * Dot(x.k, y)
    ensures RefStep(S, x).0[i]
         == x.decay * Dot(S[i], x.q) + x.beta * (x.v[i] - x.decay * Dot(S[i], x.k)) * Dot(x.k, x.q)
  {
    hide Dot, Next, NextRow;
    NextIsRowwise(S, x, i);
    RowAnswers(S[i], x.v[i], x, y);
    RowAnswers(S[i], x.v[i], x, x.q);
  }

  lemma RowAnswers(s: Vec, v: real, x: Token, y: Vec)
    requires |s| == |x.k| == |y|
    ensures Dot(NextRow(s, v, x), y) == x.decay * Dot(s, y) + x.beta * (v - x.decay * Dot(s, x.k)) * Dot(x.k, y)
  {
    hide Dot, NextRow, Correction;
    RowRecall(s, v, x, y);
    CorrectionIs(x.beta, v, x.decay * Dot(s, x.k));
  }

  lemma CorrectionIs(beta: real, v: real, recalled: real)
    ensures Correction(beta, v, recalled) == beta * (v - recalled)
  {
  }

  /** A token that asks for its own unit key, with a full gate, is answered with its own value. */
  lemma StepOutputsValue(S: Matrix, x: Token)
    requires Fits(S, x) && Dot(x.k, x.k) == 1.0 && x.beta == 1.0 && x.q == x.k
    ensures RefStep(S, x).0 == x.v
  {
    hide Dot, Next;
    StepRecallsValue(S, x);
  }

  /** The delta rule: with a unit key and a full gate the new state answers the key with the value. */
  lemma StepRecallsValue(S: Matrix, x: Token)
    requires Fits(S, x) && Dot(x.k, x.k) == 1.0 && x.beta == 1.0
    ensures Apply(Next(S, x), x.k) == x.v
  {
    hide Dot, Next, NextRow;
    var y := Apply(Next(S, x), x.k);
    forall i | 0 <= i < |S|
      ensures y[i] == x.v[i]
    {
      NextIsRowwise(S, x, i);
      RowRecall(S[i], x.v[i], x, x.k);
    }
  }

  /** What the state answers to anything orthogonal to the key only decays. */
  lemma StepKeepsOrthogonal(S: Matrix, x: Token, y: Vec)
    requires Fits(S, x) && |y| == |x.k| && Dot(x.k, y) == 0.0
    ensures Apply(Next(S, x), y) == Scale(x.decay, Apply(S, y))
  {
    hide Dot, Next, NextRow, Correction;
    var a, b := Apply(Next(S, x), y), Scale(x.decay, Apply(S, y));
    forall i | 0 <= i < |S|
      ensures a[i] == b[i]
    {
      NextIsRowwise(S, x, i);
      RowRecall(S[i], x.v[i], x, y);
    }
  }

  /** A row with the value input removed: the part of the step that is linear in the state. */
  function Contracted(d: Vec, x: Token): (t: Vec)
    requires |d| == |x.k|
    ensures |t| == |x.k|
  {
    var decayed := Scale(x.decay, d);
    Add(decayed, Scale(Correction(x.beta, 0.0, Dot(decayed, x.k)), x.k))
  }

  lemma RowDifference(s: Vec, t: Vec, v: real, x: Token)
    requires |s| == |t| == |x.k|
    ensures Sub(NextRow(s, v, x), NextRow(t, v, x)) == Contracted(Sub(s, t), x)
  {
    hide Dot, Correction;
    var ds, dt, dd := Scale(x.decay, s), Scale(x.decay, t), Scale(x.decay, Sub(s, t));
    ScaleDifference(x.decay, s, t);
    DotSub(ds, dt, x.k);
    CorrectionLinear(x.beta, v, Dot(ds, x.k), Dot(dt, x.k));
    var a, b := Correction(x.beta, v, Dot(ds, x.k)), Correction(x.beta, v, Dot(dt, x.k));
    SumDifference(ds, dt, a, b, Correction(x.beta, 0.0, Dot(dd, x.k)), x.k);
  }

  lemma CorrectionLinear(beta: real, v: real, p: real, q: real)
    ensures Correction(beta, v, p) - Correction(beta, v, q) == Correction(beta, 0.0, p - q)
  {
  }

  lemma SumDifference(ds: Vec, dt: Vec, a: real, b: real, c: real, k: Vec)
    requires |ds| == |dt| == |k| && a - b == c
    ensures Sub(Add(ds, Scale(a, k)), Add(dt, Scale(b, k))) == Add(Sub(ds, dt), Scale(c, k))
  {
    var l, r := Sub(Add(ds, Scale(a, k)), Add(dt, Scale(b, k))), Add(Sub(ds, dt), Scale(c, k));
    forall j | 0 <= j < |k|
      ensures l[j] == r[j]
    {
    }
  }

  lemma ScaleDifference(r: real, s: Vec, t: Vec)
    requires |s| == |t|
    ensures Scale(r, Sub(s, t)) == Sub(Scale(r, s), Scale(r, t))
  {
    forall j | 0 <= j < |s|
      ensures Scale(r, Sub(s, t))[j] == Sub(Scale(r, s), Scale(r, t))[j]
    {
    }
  }

  /** The linear part never lengthens a row beyond the decay. */
  lemma RowContracts(d: Vec, x: Token)
    requires |d| == |x.k| && Gated(x)
    ensures Square(Contracted(d, x)) <= (x.decay * x.decay) * Square(d)
  {
    hide Dot, Scale, Add, Correction;
    var e := Scale(x.decay, d);
    SquareScaled(x.decay, d);
    DeltaContracts(e, x.k, x.beta, Correction(x.beta, 0.0, Dot(e, x.k)));
  }

  lemma DeltaContracts(e: Vec, k: Vec, beta: real, c: real)
    requires |e| == |k| && 0.0 <= beta <= 1.0 && Dot(k, k) <= 1.0 && c == Correction(beta, 0.0, Dot(e, k))
    ensures Square(Add(e, Scale(c, k))) <= Square(e)
  {
    hide Dot, Scale, Add, Correction;
    SquareOfSum(e, Scale(c, k));
    DotScaleRight(e, c, k);
    DotOfScaled(c, k, c, k);
    NegatedCorrection(beta, Dot(e, k), c);
    DeltaShrinks(Dot(e, k), Dot(k, k), beta, c, Dot(e, Scale(c, k)), Dot(Scale(c, k), Scale(c, k)));
  }

  lemma NegatedCorrection(beta: real, t: real, c: real)
    requires c == Correction(beta, 0.0, t)
    ensures c == -(beta * t)
  {
  }

  lemma DeltaShrinks(t: real, kk: real, beta: real, c: real, cross: real, square: real)
    requires 0.0 <= beta <= 1.0 && kk <= 1.0 && c == -(beta * t) && cross == c * t && square == (c * c) * kk
    ensures 2.0 * cross + square <= 0.0
  {
    var tt, cc := t * t, c * c;
    var bt := beta * tt;
    assert square <= cc;
    assert cross == -bt;
    assert cc == bt * beta;
    NonNegativeProduct(tt, beta);
    assert bt >= 0.0;
    assert cc <= bt;
  }

  // ----- the whole state ------------------------------------------------------------------------

  function Flatten(S: Matrix): Vec {
    if S == [] then [] else S[0] + Flatten(S[1..])
  }

  predicate SameShape(S: Matrix, T: Matrix) {
    |S| == |T| && forall i :: 0 <= i < |S| ==> |S[i]| == |T[i]|
  }

  lemma {:induction false} FlattenShape(S: Matrix, T: Matrix)
    requires SameShape(S, T)
    ensures |Flatten(S)| == |Flatten(T)|
  {
    if S != [] {
      FlattenShape(S[1..], T[1..]);
    }
  }

  function Difference(S: Matrix, T: Matrix): (d: Vec)
    requires SameShape(S, T)
  {
    FlattenShape(S, T);
    Sub(Flatten(S), Flatten(T))
  }

  /** The two states are within r of each other in the Frobenius norm. */
  ghost predicate Near(S: Matrix, T: Matrix, r: real) {
    SameShape(S, T) && Within(Difference(S, T), r)
  }

  function SumOfRowSquares(S: Matrix, T: Matrix): real
    requires SameShape(S, T)
  {
    if S == [] then 0.0 else Square(Sub(S[0], T[0])) + SumOfRowSquares(S[1..], T[1..])
  }

  /** The squared Frobenius distance of two states. */
  function Energy(S: Matrix, T: Matrix): real
    requires SameShape(S, T)
  {
    SumOfRowSquares(S, T)
  }

  lemma {:induction false} EnergyOfDifference(S: Matrix, T: Matrix)
    requires SameShape(S, T)
    ensures Square(Difference(S, T)) == Energy(S, T)
  {
    if S != [] {
      FlattenShape(S[1..], T[1..]);
      EnergyOfDifference(S[1..], T[1..]);
      var d, e := Sub(S[0], T[0]), Difference(S[1..], T[1..]);
      assert Difference(S, T) == d + e;
      SquareConcat(d, e);
    }
  }

  /** Two rows ended at most m times as far apart, squared, as they began. */
  ghost predicate Shrunk(s: Vec, t: Vec, s2: Vec, t2: Vec, m: real)
    requires |s| == |t| && |s2| == |t2|
  {
    Square(Sub(s2, t2)) <= m * Square(Sub(s, t))
  }

  lemma {:induction false} EnergyShrinks(S: Matrix, T: Matrix, S2: Matrix, T2: Matrix, m: real)
    requires SameShape(S, T) && SameShape(S2, T2) && |S| == |S2|
    requires forall i :: 0 <= i < |S| ==> Shrunk(S[i], T[i], S2[i], T2[i], m)
    ensures Energy(S2, T2) <= m * Energy(S, T)
  {
    if S == [] {
      assert Energy(S2, T2) == 0.0 && Energy(S, T) == 0.0;
    } else {
      hide Square, Sub, Shrunk, Energy;
      EnergyShrinks(S[1..], T[1..], S2[1..], T2[1..], m);
      assert Shrunk(S[0], T[0], S2[0], T2[0], m);
    }
  }

  lemma EnergyUnfold(S: Matrix, T: Matrix)
    requires SameShape(S, T) && S != []
    ensures Energy(S, T) == Square(Sub(S[0], T[0])) + Energy(S[1..], T[1..])
  {
  }

  lemma RowGapShrinks(S: Matrix, T: Matrix, x: Token, i: nat)
    requires Fits(S, x) && Fits(T, x) && Gated(x) && i < |S|
    ensures Shrunk(S[i], T[i], Next(S, x)[i], Next(T, x)[i], x.decay * x.decay)
  {
    hide Square, Sub, NextRow, Contracted;
    NextIsRowwise(S, x, i);
    NextIsRowwise(T, x, i);
    RowDifference(S[i], T[i], x.v[i], x);
    RowContracts(Sub(S[i], T[i]), x);
  }

  lemma EnergyContracts(S: Matrix, T: Matrix, x: Token)
    requires Fits(S, x) && Fits(T, x) && Gated(x)
    ensures Energy(Next(S, x), Next(T, x)) <= (x.decay * x.decay) * Energy(S, T)
  {
    hide Square, Sub, Next, Energy, Shrunk;
    forall i | 0 <= i < |S|
      ensures Shrunk(S[i], T[i], Next(S, x)[i], Next(T, x)[i], x.decay * x.decay)
    {
      RowGapShrinks(S, T, x, i);
    }
    EnergyShrinks(S, T, Next(S, x), Next(T, x), x.decay * x.decay);
  }

  /** One step contracts the gap between two states on the same token by the decay. */
  lemma StepContracts(S: Matrix, T: Matrix, x: Token, r: real)
    requires Fits(S, x) && Fits(T, x) && Gated(x) && Near(S, T, r)
    ensures Near(Next(S, x), Next(T, x), x.decay * r)
  {
    hide Dot, Energy, Next, Difference;
    EnergyContracts(S, T, x);
    EnergyOfDifference(S, T);
    EnergyOfDifference(Next(S, x), Next(T, x));
  }

  lemma NearTriangle(A: Matrix, B: Matrix, C: Matrix, r: real, s: real)
    requires Near(A, B, r) && Near(B, C, s)
    ensures Near(A, C, r + s)
  {
    FlattenShape(A, B);
    FlattenShape(B, C);
    Triangle(Difference(A, B), Difference(B, C), r, s);
    assert Add(Difference(A, B), Difference(B, C)) == Difference(A, C);
  }

  lemma NearSymmetric(A: Matrix, B: Matrix, r: real)
    requires Near(A, B, r)
    ensures Near(B, A, r)
  {
    FlattenShape(A, B);
    assert Difference(B, A) == Scale(-1.0, Difference(A, B));
    DotOfScaled(-1.0, Difference(A, B), -1.0, Difference(A, B));
  }

  lemma NearWider(A: Matrix, B: Matrix, r: real, s: real)
    requires Near(A, B, r) && r <= s
    ensures Near(A, B, s)
  {
    ScaledBound(r, r, s);
    ScaledBound(s, r, s);
  }

  /** What the state's gap does to the outputs read from it. */
  lemma {:induction false} OutputGap(S: Matrix, T: Matrix, q: Vec)
    requires SameShape(S, T) && forall i :: 0 <= i < |S| ==> |S[i]| == |q|
    ensures Square(Sub(Apply(S, q), Apply(T, q))) <= Energy(S, T) * Square(q)
  {
    if S != [] {
      hide Dot, Square;
      OutputGap(S[1..], T[1..], q);
      OutputRow(S, T, q, Sub(Apply(S, q), Apply(T, q)), Sub(Apply(S[1..], q), Apply(T[1..], q)));
    }
  }

  lemma OutputRow(S: Matrix, T: Matrix, q: Vec, o: Vec, rest: Vec)
    requires SameShape(S, T) && S != [] && forall i :: 0 <= i < |S| ==> |S[i]| == |q|
    requires |S[0]| == |T[0]| == |q| && SameShape(S[1..], T[1..])
    requires o != [] && o[1..] == rest && o[0] == Dot(S[0], q) - Dot(T[0], q)
    requires Square(rest) <= Energy(S[1..], T[1..]) * Square(q)
    ensures Square(o) <= Energy(S, T) * Square(q)
  {
    hide Dot, Sub, Energy;
    var d := Sub(S[0], T[0]);
    DotUnfold(o, o);
    DotSub(S[0], T[0], q);
    CauchySchwarzSquared(d, q);
    EnergyUnfold(S, T);
  }

  // ----- whole runs -----------------------------------------------------------------------------

  /** A run whose stored states may each miss the exact step by eps, as when they are kept in fewer
      bits than the step computes with. */
  ghost predicate StoredRun(tokens: seq<Token>, states: seq<Matrix>, eps: real) {
    && |states| == |tokens| + 1
    && forall t :: 0 <= t < |tokens| ==> StoredStep(states[t], tokens[t], states[t + 1], eps)
  }

  ghost predicate StoredStep(S: Matrix, x: Token, T: Matrix, eps: real) {
    Fits(S, x) && Near(T, Next(S, x), eps)
  }

  /** The gap after n steps when step t contracts by ds(t) and adds eps. */
  function Bound(ds: nat -> real, eps: real, start: real, n: nat): real {
    if n == 0 then start else ds(n - 1) * Bound(ds, eps, start, n - 1) + eps
  }

  lemma GapStep(S: Matrix, T: Matrix, S2: Matrix, T2: Matrix, x: Token, gamma: real, r: real, e: real, f: real)
    requires Gated(x) && x.decay <= gamma
    requires Near(S, T, r) && StoredStep(S, x, S2, e) && StoredStep(T, x, T2, f)
    ensures Near(S2, T2, gamma * r + (e + f))
  {
    hide Next, Difference, SameShape, Dot;
    StepContracts(S, T, x, r);
    NearSymmetric(T2, Next(T, x), f);
    NearTriangle(S2, Next(S, x), Next(T, x), e, x.decay * r);
    NearTriangle(S2, Next(T, x), T2, e + x.decay * r, f);
    ScaledBound(r, x.decay, gamma);
    NearWider(S2, T2, e + x.decay * r + f, gamma * r + (e + f));
  }

  lemma GapAtStep(
    tokens: seq<Token>, a: seq<Matrix>, b: seq<Matrix>, gamma: real, e: real, f: real, r: real, n: nat)
    requires StoredRun(tokens, a, e) && StoredRun(tokens, b, f) && n < |tokens|
    requires Gated(tokens[n]) && tokens[n].decay <= gamma && Near(a[n], b[n], r)
    ensures Near(a[n + 1], b[n + 1], gamma * r + (e + f))
  {
    hide Near, StoredStep, Gated;
    GapStep(a[n], b[n], a[n + 1], b[n + 1], tokens[n], gamma, r, e, f);
  }

  /** Two runs over the same tokens, each storing its states within its own error, are never further
      apart than the bound their decays give. */
  lemma {:induction false} GapBounded(
    tokens: seq<Token>, a: seq<Matrix>, b: seq<Matrix>, ds: nat -> real, e: real, f: real, start: real, n: nat)
    requires |a| == |b| == |tokens| + 1 && StoredRun(tokens, a, e) && StoredRun(tokens, b, f) && n <= |tokens|
    requires forall t :: 0 <= t < |tokens| ==> Gated(tokens[t]) && tokens[t].decay <= ds(t)
    requires Near(a[0], b[0], start)
    ensures Near(a[n], b[n], Bound(ds, e + f, start, n))
  {
    hide Near, StoredRun, Gated;
    if n > 0 {
      GapBounded(tokens, a, b, ds, e, f, start, n - 1);
      hide Bound;
      var gamma, r := ds(n - 1), Bound(ds, e + f, start, n - 1);
      GapAtStep(tokens, a, b, gamma, e, f, r, n - 1);
      BoundStep(ds, e + f, start, n, gamma);
      NearWider(a[n], b[n], gamma * r + (e + f), Bound(ds, e + f, start, n));
    }
  }

  function Power(x: real, n: nat): real {
    if n == 0 then 1.0 else x * Power(x, n - 1)
  }

  lemma BoundStep(ds: nat -> real, eps: real, start: real, n: nat, d: real)
    requires n > 0 && d == ds(n - 1)
    ensures Bound(ds, eps, start, n) == d * Bound(ds, eps, start, n - 1) + eps
  {
  }

  function Constant(gamma: real): nat -> real {
    (t: nat) => gamma
  }

  /** At one decay the bound in closed form: the decayed initial gap plus a part that never reaches
      eps / (1 - gamma). */
  lemma {:induction false} BoundClosedForm(gamma: real, eps: real, start: real, n: nat, limit: real)
    requires 0.0 < gamma < 1.0 && limit * (1.0 - gamma) == eps
    ensures Bound(Constant(gamma), eps, start, n) == Power(gamma, n) * start + limit * (1.0 - Power(gamma, n))
    ensures 0.0 < Power(gamma, n) <= 1.0
  {
    if n > 0 {
      BoundClosedForm(gamma, eps, start, n - 1, limit);
      hide Power, Bound;
      BoundStep(Constant(gamma), eps, start, n, gamma);
      NextBound(gamma, eps, start, limit, Power(gamma, n - 1), Power(gamma, n),
                Bound(Constant(gamma), eps, start, n - 1), Bound(Constant(gamma), eps, start, n));
    }
  }

  lemma NextBound(gamma: real, eps: real, start: real, limit: real, p: real, q: real, b: real, c: real)
    requires 0.0 < gamma < 1.0 && limit * (1.0 - gamma) == eps && 0.0 < p <= 1.0 && q == gamma * p
    requires b == p * start + limit * (1.0 - p) && c == gamma * b + eps
    ensures c == q * start + limit * (1.0 - q) && 0.0 < q <= 1.0
  {
    assert gamma * b == (gamma * p) * start + limit * gamma - limit * (gamma * p);
    ScaledBound(gamma, p, 1.0);
    PositiveProduct(gamma, p);
  }

  lemma BoundBelowLimit(gamma: real, eps: real, start: real, n: nat)
    requires 0.0 < gamma < 1.0 && eps >= 0.0
    ensures Bound(Constant(gamma), eps, start, n) <= Power(gamma, n) * start + eps / (1.0 - gamma)
  {
    var limit := eps / (1.0 - gamma);
    assert limit * (1.0 - gamma) == eps;
    assert limit >= 0.0;
    BoundClosedForm(gamma, eps, start, n, limit);
    ScaledBound(limit, 1.0 - Power(gamma, n), 1.0);
  }

  ghost predicate Decays(ds: nat -> real) {
    forall t: nat :: 0.0 < ds(t) <= 1.0
  }

  lemma {:induction false} BoundNonNegative(ds: nat -> real, eps: real, start: real, n: nat)
    requires Decays(ds) && eps >= 0.0 && start >= 0.0
    ensures Bound(ds, eps, start, n) >= 0.0
  {
    if n > 0 {
      hide Bound;
      BoundStep(ds, eps, start, n, ds(n - 1));
      BoundNonNegative(ds, eps, start, n - 1);
      NonNegativeProduct(ds(n - 1), Bound(ds, eps, start, n - 1));
    }
  }

  /** Errors and initial gaps add up. */
  lemma {:induction false} BoundAdds(ds: nat -> real, e: real, f: real, start: real, n: nat)
    ensures Bound(ds, e + f, start, n) == Bound(ds, e, 0.0, n) + Bound(ds, f, start, n)
  {
    if n > 0 {
      hide Bound;
      BoundAdds(ds, e, f, start, n - 1);
    }
  }

  // ----- the bound is exact ---------------------------------------------------------------------

  function IdleToken(gamma: real): Token {
    Token([0.0], [0.0], [0.0], gamma, 0.0)
  }

  lemma IdleStep(gamma: real, x: real)
    ensures Fits([[x]], IdleToken(gamma)) && Next([[x]], IdleToken(gamma)) == [[gamma * x]]
  {
    var t := IdleToken(gamma);
    NextIsRowwise([[x]], t, 0);
    IdleRow(gamma, x, t);
  }

  lemma IdleRow(gamma: real, x: real, t: Token)
    requires t == IdleToken(gamma)
    ensures NextRow([x], t.v[0], t) == [gamma * x]
  {
    hide Dot, Correction;
    var decayed := Scale(gamma, [x]);
    var c := Correction(t.beta, t.v[0], Dot(decayed, t.k));
    assert decayed[0] == gamma * x;
    assert t.k[0] == 0.0;
    assert Scale(c, t.k)[0] == c * t.k[0];
    assert Add(decayed, Scale(c, t.k))[0] == gamma * x;
    assert NextRow([x], t.v[0], t) == Add(decayed, Scale(c, t.k));
  }

  lemma DotOfOne(x: real, y: real)
    ensures Dot([x], [y]) == x * y
  {
    assert Dot([x], [y]) == x * y + Dot([x][1..], [y][1..]);
  }

  lemma IdleNear(gamma: real, x: real, y: real, r: real)
    requires Abs(y - gamma * x) <= r
    ensures StoredStep([[x]], IdleToken(gamma), [[y]], r)
  {
    IdleStep(gamma, x);
    GapOfOne(y, gamma * x);
    SquareMonotone(y - gamma * x, r);
  }

  lemma GapOfOne(y: real, z: real)
    ensures SameShape([[y]], [[z]]) && Difference([[y]], [[z]]) == [y - z]
    ensures Square([y - z]) == (y - z) * (y - z)
  {
    assert Flatten([[y]]) == [y] + Flatten([[y]][1..]) && Flatten([[z]]) == [z] + Flatten([[z]][1..]);
    assert Flatten([[y]]) == [y] && Flatten([[z]]) == [z];
    DotOfOne(y - z, y - z);
  }

  /** One scalar run drifts down by e a step, the other up by f. */
  lemma IdleBoundStep(ds: nat -> real, eps: real, start: real, t: nat)
    requires eps >= 0.0
    ensures StoredStep([[Bound(ds, eps, start, t)]], IdleToken(ds(t)), [[Bound(ds, eps, start, t + 1)]], eps)
    ensures StoredStep([[-Bound(ds, eps, start, t)]], IdleToken(ds(t)), [[-Bound(ds, eps, start, t + 1)]], eps)
  {
    hide StoredStep;
    hide Bound;
    BoundStep(ds, eps, start, t + 1, ds(t));
    BothWays(ds(t), Bound(ds, eps, start, t), Bound(ds, eps, start, t + 1), eps);
  }

  lemma BothWays(d: real, b: real, c: real, eps: real)
    requires eps >= 0.0 && c == d * b + eps
    ensures StoredStep([[b]], IdleToken(d), [[c]], eps) && StoredStep([[-b]], IdleToken(d), [[-c]], eps)
  {
    hide StoredStep;
    var nb, nc := -b, -c;
    assert nc - d * nb == -eps by { assert d * nb == -(d * b); }
    IdleNear(d, b, c, eps);
    IdleNear(d, nb, nc, eps);
  }

  lemma IdleGated(gamma: real)
    requires 0.0 < gamma <= 1.0
    ensures Gated(IdleToken(gamma))
  {
    DotOfOne(0.0, 0.0);
  }

  function IdleTokens(ds: nat -> real, n: nat): (tokens: seq<Token>)
    ensures |tokens| == n && forall t :: 0 <= t < n ==> tokens[t] == IdleToken(ds(t))
  {
    seq(n, t requires 0 <= t => IdleToken(ds(t)))
  }

  function Low(ds: nat -> real, e: real, n: nat): (states: seq<Matrix>)
    ensures |states| == n + 1 && forall t :: 0 <= t <= n ==> states[t] == [[-Bound(ds, e, 0.0, t)]]
  {
    seq(n + 1, t requires 0 <= t => [[-Bound(ds, e, 0.0, t)]])
  }

  function High(ds: nat -> real, f: real, start: real, n: nat): (states: seq<Matrix>)
    ensures |states| == n + 1 && forall t :: 0 <= t <= n ==> states[t] == [[Bound(ds, f, start, t)]]
  {
    seq(n + 1, t requires 0 <= t => [[Bound(ds, f, start, t)]])
  }

  /** Two runs over tokens with exactly these decays, stored within e and f, that start within start. */
  ghost predicate Pair(
    ds: nat -> real, tokens: seq<Token>, a: seq<Matrix>, b: seq<Matrix>, e: real, f: real, start: real)
  {
    && |a| == |b| == |tokens| + 1 && StoredRun(tokens, a, e) && StoredRun(tokens, b, f) && Near(a[0], b[0], start)
    && forall t :: 0 <= t < |tokens| ==> Gated(tokens[t]) && tokens[t].decay == ds(t)
  }

  lemma DriftingRuns(ds: nat -> real, e: real, f: real, start: real, n: nat)
    requires Decays(ds) && e >= 0.0 && f >= 0.0
    ensures StoredRun(IdleTokens(ds, n), Low(ds, e, n), e) && StoredRun(IdleTokens(ds, n), High(ds, f, start, n), f)
    ensures forall t :: 0 <= t < n ==> Gated(IdleTokens(ds, n)[t]) && IdleTokens(ds, n)[t].decay == ds(t)
  {
    hide StoredStep, Gated, Bound, IdleTokens, Low, High;
    var tokens, a, b := IdleTokens(ds, n), Low(ds, e, n), High(ds, f, start, n);
    forall t | 0 <= t < n
      ensures StoredStep(a[t], tokens[t], a[t + 1], e)
      ensures StoredStep(b[t], tokens[t], b[t + 1], f)
      ensures Gated(tokens[t]) && tokens[t].decay == ds(t)
    {
      IdleBoundStep(ds, e, 0.0, t);
      IdleBoundStep(ds, f, start, t);
      IdleGated(ds(t));
    }
  }

  lemma DriftedGap(ds: nat -> real, e: real, f: real, start: real, t: nat)
    ensures var a, b := [[-Bound(ds, e, 0.0, t)]], [[Bound(ds, f, start, t)]];
            SameShape(b, a) && Difference(b, a) == [Bound(ds, e + f, start, t)]
  {
    BoundAdds(ds, e, f, start, t);
    hide Bound;
    GapOfOne(Bound(ds, f, start, t), -Bound(ds, e, 0.0, t));
  }

  lemma NearStart(x: real, y: real, r: real)
    requires r >= 0.0 && x == 0.0 && y == r
    ensures Near([[x]], [[y]], r)
  {
    GapOfOne(x, y);
    SquareMonotone(x - y, r);
  }

  /** For every stream of decays some pair of runs meets the bound exactly at every step. */
  lemma BoundAttained(ds: nat -> real, e: real, f: real, start: real, n: nat)
    requires Decays(ds) && e >= 0.0 && f >= 0.0 && start >= 0.0
    ensures var tokens, a, b := IdleTokens(ds, n), Low(ds, e, n), High(ds, f, start, n);
            && Pair(ds, tokens, a, b, e, f, start)
            && forall t :: 0 <= t <= n ==> SameShape(b[t], a[t]) && Difference(b[t], a[t]) == [Bound(ds, e + f, start, t)]
  {
    hide StoredRun, Gated, IdleTokens, Low, High, Near, Difference, SameShape;
    DriftingRuns(ds, e, f, start, n);
    NearStart(-Bound(ds, e, 0.0, 0), Bound(ds, f, start, 0), start);
    forall t | 0 <= t <= n
      ensures SameShape(High(ds, f, start, n)[t], Low(ds, e, n)[t])
      ensures Difference(High(ds, f, start, n)[t], Low(ds, e, n)[t]) == [Bound(ds, e + f, start, t)]
    {
      DriftedGap(ds, e, f, start, t);
    }
  }

  ghost predicate PairAt(
    ds: nat -> real, tokens: seq<Token>, a: seq<Matrix>, b: seq<Matrix>, e: real, f: real, start: real, n: nat)
  {
    Pair(ds, tokens, a, b, e, f, start) && n <= |tokens|
  }

  /** No pair of runs with these decays is ever more than m apart. */
  ghost predicate GapsWithin(ds: nat -> real, e: real, f: real, start: real, m: real) {
    forall tokens, a, b, n :: PairAt(ds, tokens, a, b, e, f, start, n) ==> Near(a[n], b[n], m)
  }

  ghost predicate StaysWithin(ds: nat -> real, eps: real, start: real, m: real) {
    forall n: nat :: Bound(ds, eps, start, n) <= m
  }

  /** Exactly when the error stays bounded: the gap of all runs with these decays stays within m if and only
      if the bound does. */
  lemma GapWithinIff(ds: nat -> real, e: real, f: real, start: real, m: real)
    requires Decays(ds) && e >= 0.0 && f >= 0.0 && start >= 0.0
    ensures GapsWithin(ds, e, f, start, m) <==> StaysWithin(ds, e + f, start, m)
  {
    hide Near, StoredRun, Difference, Bound, Low, High, IdleTokens;
    if StaysWithin(ds, e + f, start, m) {
      forall tokens, a, b, n | PairAt(ds, tokens, a, b, e, f, start, n)
        ensures Near(a[n], b[n], m)
      {
        GapBounded(tokens, a, b, ds, e, f, start, n);
        NearWider(a[n], b[n], Bound(ds, e + f, start, n), m);
      }
    }
    if GapsWithin(ds, e, f, start, m) {
      var eps := e + f;
      forall n: nat
        ensures Bound(ds, eps, start, n) <= m
      {
        BoundAttained(ds, e, f, start, n);
        var a, b := Low(ds, e, n), High(ds, f, start, n);
        assert PairAt(ds, IdleTokens(ds, n), a, b, e, f, start, n);
        NearOfOne(a[n], b[n], Bound(ds, e + f, start, n), m);
      }
    }
  }

  lemma NearOfOne(S: Matrix, T: Matrix, gap: real, m: real)
    requires Near(S, T, m) && SameShape(T, S) && Difference(T, S) == [gap]
    ensures gap <= m
  {
    NearSymmetric(S, T, m);
    DotOfOne(gap, gap);
    if gap > m {
      StrictSquare(m, gap);
    }
  }

  /** One margin for all steps is enough: the bound is then no more than that of the constant decay. */
  lemma {:induction false} MarginSuffices(ds: nat -> real, gamma: real, eps: real, start: real, n: nat)
    requires Decays(ds) && (forall t: nat :: ds(t) <= gamma) && eps >= 0.0 && start >= 0.0
    ensures Bound(ds, eps, start, n) <= Bound(Constant(gamma), eps, start, n)
  {
    if n > 0 {
      MarginSuffices(ds, gamma, eps, start, n - 1);
      BoundNonNegative(ds, eps, start, n - 1);
      hide Bound;
      var d := ds(n - 1);
      BoundStep(ds, eps, start, n, d);
      BoundStep(Constant(gamma), eps, start, n, gamma);
      assert 0.0 < d <= gamma;
      LargerStep(d, gamma, Bound(ds, eps, start, n - 1), Bound(Constant(gamma), eps, start, n - 1));
    }
  }

  lemma LargerStep(d: real, g: real, b: real, c: real)
    requires 0.0 < d <= g && 0.0 <= b <= c
    ensures d * b <= g * c
  {
    ScaledBound(b, d, g);
    ScaledBound(g, b, c);
  }

  /** It is not necessary: a margin at every other step bounds the error as well, however close to 1 the
      other decays come. */
  lemma {:induction false} MarginEveryOtherStep(ds: nat -> real, eps: real, start: real, n: nat)
    requires Decays(ds) && (forall t: nat :: t % 2 == 0 ==> ds(t) <= 0.5) && eps >= 0.0 && start >= 0.0
    ensures 0.0 <= Bound(ds, eps, start, n) <= (if n % 2 == 0 then 4.0 * eps + start else 3.0 * eps + start)
  {
    if n > 0 {
      MarginEveryOtherStep(ds, eps, start, n - 1);
      BoundNonNegative(ds, eps, start, n);
      hide Bound;
      var d := ds(n - 1);
      BoundStep(ds, eps, start, n, d);
      if n % 2 == 1 {
        HalfStep(d, Bound(ds, eps, start, n - 1), Bound(ds, eps, start, n), eps);
      } else {
        WholeStep(d, Bound(ds, eps, start, n - 1), Bound(ds, eps, start, n), eps);
      }
    }
  }

  lemma HalfStep(d: real, b: real, c: real, eps: real)
    requires 0.0 < d <= 0.5 && b >= 0.0 && c == d * b + eps
    ensures c <= b / 2.0 + eps
  {
    ScaledBound(b, d, 0.5);
  }

  lemma WholeStep(d: real, b: real, c: real, eps: real)
    requires 0.0 < d <= 1.0 && b >= 0.0 && c == d * b + eps
    ensures c <= b + eps
  {
  }

  // ----- without a margin -------------------------------------------------------------------------

  function Halved(n: nat): (h: real)
    ensures 0.0 < h <= 1.0 && (n > 1 ==> h <= 0.25)
  {
    if n == 0 then 1.0 else Halved(n - 1) / 2.0
  }

  /** Decays below 1 that approach it fast. */
  function Approaching(): nat -> real {
    (t: nat) => 1.0 - Halved(t + 2)
  }

  /** At least this much has piled up after n steps. */
  function Pile(eps: real, n: nat): real {
    eps * (n as real * (0.5 + Halved(n + 1)))
  }

  lemma {:induction false} ErrorsPileUp(eps: real, n: nat)
    requires eps > 0.0
    ensures Bound(Approaching(), eps, 0.0, n) >= Pile(eps, n)
  {
    if n > 0 {
      ErrorsPileUp(eps, n - 1);
      var h := Halved(n + 1);
      assert Halved(n) == h + h;
      BoundStep(Approaching(), eps, 0.0, n, 1.0 - h);
      hide Bound, Halved;
      PileUpStep(eps, h, (n - 1) as real, h, Bound(Approaching(), eps, 0.0, n - 1));
    }
  }

  lemma PileUpStep(eps: real, h: real, k: real, g: real, b: real)
    requires eps > 0.0 && 0.0 < h <= 0.25 && k >= 0.0 && g == h && b >= eps * (k * (0.5 + (h + h)))
    ensures (1.0 - h) * b + eps >= eps * ((k + 1.0) * (0.5 + g))
  {
    var q := 0.5 + (h + h);
    ScaledBound(1.0 - h, eps * (k * q), b);
    assert (1.0 - h) * (eps * (k * q)) == eps * (k * ((1.0 - h) * q));
    assert (1.0 - h) * q >= 0.5 + h by { NonNegativeProduct(h, 0.5 - (h + h)); }
    ScaledBound(k, 0.5 + h, (1.0 - h) * q);
    ScaledBound(eps, (k + 1.0) * (0.5 + h), k * ((1.0 - h) * q) + 1.0);
  }

  /** Decays that are merely all below 1 bound nothing: over this one stream of them the error of some run
      passes every m. */
  lemma NoBoundWithoutMargin(eps: real, m: real) returns (n: nat)
    requires eps > 0.0
    ensures Decays(Approaching()) && (forall t: nat :: Approaching()(t) < 1.0) && Bound(Approaching(), eps, 0.0, n) > m
  {
    var steps := 2.0 * Larger(m, 0.0) / eps;
    n := (steps.Floor + 1) as nat;
    assert steps * eps == 2.0 * Larger(m, 0.0);
    ErrorsPileUp(eps, n);
    hide Bound, Halved;
    PilePasses(eps, n as real, Halved(n + 1), steps, m);
  }

  lemma PilePasses(eps: real, n: real, h: real, steps: real, m: real)
    requires eps > 0.0 && n > steps >= 0.0 && h > 0.0 && steps * eps == 2.0 * Larger(m, 0.0)
    ensures eps * (n * (0.5 + h)) > m
  {
    PositiveProduct(eps, n - steps);
    NonNegativeProduct(n, h);
    ScaledBound(eps, n * 0.5, n * (0.5 + h));
    assert eps * (n * 0.5) == (eps * n) * 0.5;
  }
}

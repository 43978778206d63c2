/** The gated-delta recurrence run over slots: how a batch's tensors become per-head tokens, and what
    the scan theorems say about it. */
module GatedDeltaSlots {
  import opened GatedDelta
  import opened RealArithmetic
  import opened SlotScan
  import opened Vectors

  /** The step as the scans use it; inputs of the wrong shape, which the tensor operations refuse, leave
      the state alone. */
  function DeltaStep(S: Matrix, x: Token): (Vec, Matrix) {
    if Fits(S, x) then RefStep(S, x) else ([], S)
  }

  /** One token's tensors: a query and a key for each of H heads, the rest for each of HV value heads. */
  datatype TokenRow = TokenRow(q: seq<Vec>, k: seq<Vec>, v: seq<Vec>, decay: seq<real>, beta: seq<real>) {
    predicate Valid(h: nat, hv: nat) {
      |q| == h && |k| == h && |v| == hv && |decay| == hv && |beta| == hv
    }
  }

  /** Value heads share the query and key of their group: value head hv reads head hv // (HV // H). */
  function HeadTokens(row: TokenRow, h: nat, hv: nat): (r: seq<Token>)
    requires row.Valid(h, hv) && h > 0 && hv % h == 0
    ensures |r| == hv
    ensures forall i :: 0 <= i < hv ==> r[i].v == row.v[i] && r[i].decay == row.decay[i] && r[i].beta == row.beta[i]
  {
    seq(hv, i requires 0 <= i < hv =>
      Token(row.q[i / (hv / h)], row.k[i / (hv / h)], row.v[i], row.decay[i], row.beta[i]))
  }

  /** Each query and key serves HV / H value heads in a row: the j-th of group g is value head g HV / H + j. */
  lemma GroupsAreConsecutive(row: TokenRow, h: nat, hv: nat, g: nat, j: nat)
    requires row.Valid(h, hv) && h > 0 && hv % h == 0 && g < h && j < hv / h
    ensures g * (hv / h) + j < hv
    ensures var x := HeadTokens(row, h, hv)[g * (hv / h) + j]; x.q == row.q[g] && x.k == row.k[g]
  {
    GroupOf(g, j, hv / h, h);
    assert hv == h * (hv / h);
  }

  lemma GroupOf(g: nat, j: nat, n: nat, h: nat)
    requires j < n && g < h
    ensures (g * n + j) / n == g && g * n + j < h * n
  {
    var d := (g * n + j) / n;
    assert (g + 1) * n == g * n + n;
    assert d * n <= g * n + j < (d + 1) * n;
    if d < g {
      Monotone(g, d + 1, n);
    } else if g < d {
      Monotone(d, g + 1, n);
    }
    Monotone(h, g + 1, n);
  }

  lemma Monotone(x: nat, y: nat, g: nat)
    requires x >= y
    ensures x * g >= y * g
  {
  }

  // ----- whole batches --------------------------------------------------------------------------

  /** The packed tensors of a batch as one token for each value head and row. */
  function TokenBatch(rows: seq<TokenRow>, h: nat, hv: nat, cu: seq<nat>, idx: seq<nat>, hasInit: seq<bool>): (b: Batch<Token>)
    requires h > 0 && hv % h == 0 && forall t :: 0 <= t < |rows| ==> rows[t].Valid(h, hv)
    ensures b.heads == hv && b.cu == cu && b.idx == idx && b.hasInit == hasInit && |b.rows| == |rows|
    ensures forall t :: 0 <= t < |rows| ==> |b.rows[t]| == hv && b.rows[t] == HeadTokens(rows[t], h, hv)
  {
    Batch(hv, seq(|rows|, t requires 0 <= t < |rows| => HeadTokens(rows[t], h, hv)), cu, idx, hasInit)
  }

  /** The verify pass over a batch with distinct slots: every value head of every sequence runs its own
      recurrence from its own slot, or from zero, and leaves its outputs, its state and all its snapshots;
      every other slot keeps its contents. */
  method VerifyBatch(
    rows: seq<TokenRow>, h: nat, hv: nat, cu: seq<nat>, idx: seq<nat>, hasInit: seq<bool>, zero: Matrix,
    state: array2<Matrix>, out: array2<Vec>, scratch: array3<Matrix>)
    requires h > 0 && hv % h == 0 && forall t :: 0 <= t < |rows| ==> rows[t].Valid(h, hv)
    requires Fit(TokenBatch(rows, h, hv, cu, idx, hasInit), state, out, scratch) && Distinct(idx)
    modifies state, out, scratch
    ensures var b := TokenBatch(rows, h, hv, cu, idx, hasInit);
      forall k, i :: 0 <= k < |idx| && 0 <= i < hv ==>
        && state[idx[k], i]
             == Final(DeltaStep, if hasInit[k] then old(state[idx[k], i]) else zero, b.HeadSegment(k, i))
        && HeadWritten(DeltaStep, if hasInit[k] then old(state[idx[k], i]) else zero, b, k, i, out, scratch)
    ensures forall slot, i :: 0 <= slot < state.Length0 && 0 <= i < hv && slot !in idx ==>
      state[slot, i] == old(state[slot, i])
  {
    hide DeltaStep, TokenBatch, Final, CellAfter, StartOf, HeadWritten, HeadOf;
    var b := TokenBatch(rows, h, hv, cu, idx, hasInit);
    ghost var table := Table(state);
    PrefillVerify(DeltaStep, zero, b, state, out, scratch);
    forall k, i | 0 <= k < |idx| && 0 <= i < hv
      ensures state[idx[k], i] == Final(DeltaStep, if hasInit[k] then table[idx[k]][i] else zero, b.HeadSegment(k, i))
      ensures HeadWritten(DeltaStep, if hasInit[k] then table[idx[k]][i] else zero, b, k, i, out, scratch)
    {
      OwnSlot(zero, b, table, k, i);
    }
    forall slot, i | 0 <= slot < state.Length0 && 0 <= i < hv && slot !in idx
      ensures state[slot, i] == table[slot][i]
    {
      CellOfUnnamedSlot(DeltaStep, zero, b, table, |idx|, slot, i);
    }
  }

  lemma OwnSlot(zero: Matrix, b: Batch<Token>, table: seq<seq<Matrix>>, k: nat, i: nat)
    requires b.Valid(|table|) && Sized(table, |table|, b.heads) && Distinct(b.idx) && k < |b.idx| && i < b.heads
    ensures var start := if b.hasInit[k] then table[b.idx[k]][i] else zero;
      && CellAfter(DeltaStep, zero, b, table, |b.idx|, b.idx[k], i) == Final(DeltaStep, start, b.HeadSegment(k, i))
      && StartOf(DeltaStep, zero, b, table, k, i) == start
  {
    hide DeltaStep, Final, HeadOf;
    HistoryIsCarried(DeltaStep, zero, b, table, k, i);
  }

  // ----- the exact run is a stored run with no error ----------------------------------------------

  ghost predicate AllFit(S: Matrix, xs: seq<Token>) {
    forall t :: 0 <= t < |xs| ==> Fits(S, xs[t])
  }

  /** The oracle's own loop over one head: another spelling of the same recurrence, from a given start. */
  method OracleHead(start: Matrix, xs: seq<Token>) returns (out: seq<Vec>)
    requires AllFit(start, xs)
    ensures out == Outputs(DeltaStep, start, xs)
  {
    out := [];
    var S := start;
    for t := 0 to |xs|
      invariant S == Final(DeltaStep, start, xs[..t]) && AllFit(S, xs)
      invariant out == Outputs(DeltaStep, start, xs)[..t]
    {
      var x := xs[t];
      ScanAt(DeltaStep, start, xs, t);
      ghost var before := S;
      S := ScaleRows(x.decay, S);
      var vt := Scale(x.beta, Sub(x.v, Apply(S, x.k)));
      S := AddOuter(S, vt, x.k);
      assert S == DeltaStep(before, x).1;
      out := out + [Apply(S, x.q)];
    }
    assert xs[..|xs|] == xs;
  }

  lemma NearItself(S: Matrix)
    ensures Near(S, S, 0.0)
  {
    FlattenShape(S, S);
    assert Difference(S, S) == Scale(0.0, Flatten(S));
    SquareOfZero(Flatten(S), 0.0);
  }

  lemma SquareOfZero(a: Vec, z: real)
    requires z == 0.0
    ensures Square(Scale(z, a)) == 0.0
  {
    hide Dot;
    SquareScaled(z, a);
  }

  lemma {:induction false} ExactRunIsStored(S: Matrix, xs: seq<Token>)
    requires AllFit(S, xs)
    ensures StoredRun(xs, [S] + Snapshots(DeltaStep, S, xs), 0.0)
    decreases xs
  {
    hide Near;
    var states := [S] + Snapshots(DeltaStep, S, xs);
    if xs != [] {
      var T := DeltaStep(S, xs[0]).1;
      ExactRunIsStored(T, xs[1..]);
      var rest := [T] + Snapshots(DeltaStep, T, xs[1..]);
      assert states[1..] == rest;
      NearItself(T);
      forall t | 0 <= t < |xs|
        ensures StoredStep(states[t], xs[t], states[t + 1], 0.0)
      {
        if t > 0 {
          assert states[t] == rest[t - 1] && states[t + 1] == rest[t] && xs[t] == xs[1..][t - 1];
        }
      }
    }
  }

  lemma BoundFromZero(gamma: real, eps: real, n: nat)
    requires 0.0 < gamma < 1.0 && eps >= 0.0
    ensures Bound(Constant(gamma), eps, 0.0, n) <= eps / (1.0 - gamma)
  {
    BoundBelowLimit(gamma, eps, 0.0, n);
  }

  /** The exact state before token n. */
  function StateBefore(S: Matrix, xs: seq<Token>, n: nat): Matrix
    requires n <= |xs|
  {
    Final(DeltaStep, S, xs[..n])
  }

  /** Along a stream each output answers its own query from the state that its own token has already
      corrected. */
  lemma OutputsAnswer(S: Matrix, xs: seq<Token>, n: nat, i: nat)
    requires AllFit(S, xs) && n < |xs| && i < |xs[n].v|
    ensures Fits(StateBefore(S, xs, n), xs[n]) && |Outputs(DeltaStep, S, xs)[n]| == |xs[n].v|
    ensures var x, row := xs[n], StateBefore(S, xs, n)[i];
            Outputs(DeltaStep, S, xs)[n][i] ==
              x.decay * Dot(row, x.q) + x.beta * (x.v[i] - x.decay * Dot(row, x.k)) * Dot(x.k, x.q)
  {
    hide Dot, Next, Final, Outputs;
    StateFits(S, xs, n);
    ScanAt(DeltaStep, S, xs, n);
    StepAnswers(StateBefore(S, xs, n), xs[n], xs[n].q, i);
  }

  lemma StateIsSnapshot(S: Matrix, xs: seq<Token>, n: nat)
    requires n <= |xs|
    ensures ([S] + Snapshots(DeltaStep, S, xs))[n] == StateBefore(S, xs, n)
  {
    if n > 0 {
      SnapshotIsPrefixState(DeltaStep, S, xs, n - 1);
    }
  }

  /** Decoding with rounded states against exact ones: as long as every decay stays at or below gamma,
      the stored state is within eps / (1 - gamma) of the exact one after any number of tokens. */
  lemma RoundedDecodeStaysClose(S: Matrix, xs: seq<Token>, stored: seq<Matrix>, gamma: real, eps: real, n: nat)
    requires AllFit(S, xs) && StoredRun(xs, stored, eps) && stored[0] == S && n <= |xs|
    requires forall t :: 0 <= t < |xs| ==> Gated(xs[t]) && xs[t].decay <= gamma
    requires 0.0 < gamma < 1.0 && eps >= 0.0
    ensures Near(StateBefore(S, xs, n), stored[n], eps / (1.0 - gamma))
  {
    hide Near, Gated, StoredStep, Bound, StateBefore;
    ExactRunIsStored(S, xs);
    NearItself(S);
    StateIsSnapshot(S, xs, n);
    var exact := [S] + Snapshots(DeltaStep, S, xs);
    GapBounded(xs, exact, stored, Constant(gamma), 0.0, eps, 0.0, n);
    BoundFromZero(gamma, eps, n);
    assert 0.0 + eps == eps;
    NearWider(exact[n], stored[n], Bound(Constant(gamma), eps, 0.0, n), eps / (1.0 - gamma));
  }

  /** And so do the outputs, all along the stream: the squared error of output n is at most the squared
      query times the square of gamma eps / (1 - gamma), one decay less than the state's. */
  lemma RoundedOutputsStayClose(S: Matrix, xs: seq<Token>, stored: seq<Matrix>, gamma: real, eps: real, n: nat, r: real)
    requires AllFit(S, xs) && StoredRun(xs, stored, eps) && stored[0] == S && n < |xs|
    requires forall t :: 0 <= t < |xs| ==> Gated(xs[t]) && xs[t].decay <= gamma
    requires 0.0 < gamma < 1.0 && eps >= 0.0 && r == gamma * (eps / (1.0 - gamma))
    ensures Fits(stored[n], xs[n]) && |Outputs(DeltaStep, S, xs)[n]| == |RefStep(stored[n], xs[n]).0|
    ensures Square(Sub(Outputs(DeltaStep, S, xs)[n], RefStep(stored[n], xs[n]).0)) <= (r * r) * Square(xs[n].q)
  {
    hide Near, Gated, Next, Square, Final;
    var T := StateBefore(S, xs, n);
    RoundedDecodeStaysClose(S, xs, stored, gamma, eps, n);
    ScanAt(DeltaStep, S, xs, n);
    assert StoredStep(stored[n], xs[n], stored[n + 1], eps);
    StateFits(S, xs, n);
    StepOutputsClose(T, stored[n], xs[n], gamma, eps / (1.0 - gamma), r);
  }

  lemma {:induction false} StateFits(S: Matrix, xs: seq<Token>, n: nat)
    requires AllFit(S, xs) && n <= |xs|
    ensures AllFit(StateBefore(S, xs, n), xs)
  {
    if n > 0 {
      StateFits(S, xs, n - 1);
      ScanAt(DeltaStep, S, xs, n - 1);
      hide Final, DeltaStep;
    } else {
      assert xs[..0] == [];
    }
  }

  lemma StepOutputsClose(T: Matrix, U: Matrix, x: Token, gamma: real, d: real, r: real)
    requires Fits(T, x) && Fits(U, x) && Gated(x) && x.decay <= gamma && Near(T, U, d) && r == gamma * d
    ensures Square(Sub(RefStep(T, x).0, RefStep(U, x).0)) <= (r * r) * Square(x.q)
  {
    hide Dot, Next, Energy, Difference;
    StepContracts(T, U, x, d);
    ScaledBound(d, x.decay, gamma);
    NearWider(Next(T, x), Next(U, x), x.decay * d, r);
    EnergyOfDifference(Next(T, x), Next(U, x));
    OutputGap(Next(T, x), Next(U, x), x.q);
    DotNonNegative(x.q);
    ScaledBound(Dot(x.q, x.q), Energy(Next(T, x), Next(U, x)), r * r);
  }
}

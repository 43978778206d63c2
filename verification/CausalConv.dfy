/** The depthwise causal convolution with carried state: one channel's window of its last W - 1 inputs. */
module CausalConv {
  import opened SlotScan
  import opened Vectors

  /** One input of one channel, with the channel's own weights (oldest tap first) and bias. */
  datatype Tap = Tap(x: real, weight: Vec, bias: real)

  /** A window fits when it and the new input fill the weights. */
  predicate Fits(hist: Vec, t: Tap) {
    |hist| + 1 == |t.weight|
  }

  function Activated(act: real -> real, win: Vec, t: Tap): real
    requires |win| == |t.weight|
  {
    act(Dot(win, t.weight) + t.bias)
  }

  /** Convolve the window with the new input at its tail, then roll left. Windows of the wrong width,
      which the tensor operations refuse, are left alone. */
  function ConvStep(act: real -> real): Step<Vec, Tap, real> {
    (hist: Vec, t: Tap) =>
      if Fits(hist, t) then (Activated(act, hist + [t.x], t), (hist + [t.x])[1..]) else (0.0, hist)
  }

  function Inputs(taps: seq<Tap>): (xs: Vec)
    ensures |xs| == |taps|
  {
    seq(|taps|, i requires 0 <= i < |taps| => taps[i].x)
  }

  ghost predicate AllFit(hist: Vec, taps: seq<Tap>) {
    forall t :: 0 <= t < |taps| ==> Fits(hist, taps[t])
  }

  /** The incremental window is the direct sum: output t weighs the W values ending at input t of the
      history followed by the inputs, and the state left behind is the last W - 1 of them. */
  lemma {:induction false} WindowIsDirectSum(act: real -> real, hist: Vec, taps: seq<Tap>)
    requires AllFit(hist, taps)
    ensures var padded := hist + Inputs(taps);
            && Final(ConvStep(act), hist, taps) == padded[|taps|..]
            && forall t :: 0 <= t < |taps| ==>
                 Outputs(ConvStep(act), hist, taps)[t] == Activated(act, padded[t..t + |hist| + 1], taps[t])
    decreases taps
  {
    hide Activated, Inputs;
    if taps != [] {
      var next := (hist + [taps[0].x])[1..];
      InputsUnfold(taps);
      WindowIsDirectSum(act, next, taps[1..]);
      var padded, rest := hist + Inputs(taps), next + Inputs(taps[1..]);
      assert rest == padded[1..];
      assert padded[0..|hist| + 1] == hist + [taps[0].x];
      forall t | 1 <= t < |taps|
        ensures Outputs(ConvStep(act), hist, taps)[t] == Activated(act, padded[t..t + |hist| + 1], taps[t])
      {
        assert rest[t - 1..t + |hist|] == padded[t..t + |hist| + 1];
        assert Outputs(ConvStep(act), hist, taps)[t] == Outputs(ConvStep(act), next, taps[1..])[t - 1];
      }
    }
  }

  lemma InputsUnfold(taps: seq<Tap>)
    requires taps != []
    ensures Inputs(taps) == [taps[0].x] + Inputs(taps[1..])
  {
  }

  /** The sum of one causal tap at a time over a zero-padded input, tap by tap from the first n. */
  function TapSum(weight: Vec, padded: Vec, t: nat, n: nat): real
    requires n <= |weight| && t + |weight| <= |padded|
  {
    if n == 0 then 0.0 else TapSum(weight, padded, t, n - 1) + weight[n - 1] * padded[n - 1 + t]
  }

  lemma {:induction false} TapSumIsDot(weight: Vec, padded: Vec, t: nat, n: nat)
    requires n <= |weight| && t + |weight| <= |padded|
    ensures TapSum(weight, padded, t, n) == Dot(padded[t..t + n], weight[..n])
  {
    if n > 0 {
      TapSumIsDot(weight, padded, t, n - 1);
      assert padded[t..t + n] == padded[t..t + n - 1] + [padded[t + n - 1]];
      assert weight[..n] == weight[..n - 1] + [weight[n - 1]];
      DotConcat(padded[t..t + n - 1], [padded[t + n - 1]], weight[..n - 1], [weight[n - 1]]);
      DotUnfold([padded[t + n - 1]], [weight[n - 1]]);
    }
  }

  /** A cold start agrees with the tap-by-tap sum over the left-padded input, as another reference in
      the repository writes it. */
  lemma ColdStartIsPaddedSum(act: real -> real, taps: seq<Tap>, width: nat, t: nat)
    requires width >= 1 && t < |taps| && forall i :: 0 <= i < |taps| ==> |taps[i].weight| == width
    ensures Outputs(ConvStep(act), Zeros(width - 1), taps)[t]
         == act(TapSum(taps[t].weight, Zeros(width - 1) + Inputs(taps), t, width) + taps[t].bias)
  {
    hide Dot;
    var padded := Zeros(width - 1) + Inputs(taps);
    WindowIsDirectSum(act, Zeros(width - 1), taps);
    TapSumIsDot(taps[t].weight, padded, t, width);
    assert taps[t].weight[..width] == taps[t].weight;
  }

  /** The oracle's own loop over one channel, with a window that starts empty. */
  method OracleConv(act: real -> real, taps: seq<Tap>, width: nat) returns (out: seq<real>)
    requires width >= 1 && forall i :: 0 <= i < |taps| ==> |taps[i].weight| == width
    ensures out == Outputs(ConvStep(act), Zeros(width - 1), taps)
  {
    out := [];
    var hist := Zeros(width - 1);
    for t := 0 to |taps|
      invariant |hist| == width - 1
      invariant hist == Final(ConvStep(act), Zeros(width - 1), taps[..t])
      invariant out == Outputs(ConvStep(act), Zeros(width - 1), taps)[..t]
    {
      ScanAt(ConvStep(act), Zeros(width - 1), taps, t);
      var win := hist + [taps[t].x];
      out := out + [Activated(act, win, taps[t])];
      hist := win[1..];
    }
    assert taps[..|taps|] == taps;
  }
}

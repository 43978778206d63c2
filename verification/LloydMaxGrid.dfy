/** On evenly spaced samples the Lloyd-Max iteration never empties a cell, so every round is defined. */
module LloydMaxGrid {
  import opened LloydMax
  import opened PowersOfTwo
  import opened Wrappers

  ghost predicate EvenlySpaced(xs: seq<real>, h: real) {
    xs != [] && h > 0.0 && forall j :: 0 < j < |xs| ==> xs[j] == xs[j - 1] + h
  }

  /** Every codeword lies in the range of the samples, and neighbours two apart are 2h apart. */
  ghost predicate Spread(c: seq<real>, xs: seq<real>, h: real)
    requires xs != []
  {
    && c != [] && Increasing(c)
    && xs[0] <= c[0] && c[|c| - 1] <= xs[|xs| - 1]
    && forall i :: 1 <= i < |c| - 1 ==> Apart(c, i, h)
  }

  ghost predicate Apart(c: seq<real>, i: nat, h: real)
    requires 1 <= i < |c| - 1
  {
    c[i + 1] - c[i - 1] >= 2.0 * h
  }

  lemma {:induction false} Gap(xs: seq<real>, h: real, i: nat, j: nat)
    requires EvenlySpaced(xs, h) && i < j < |xs|
    ensures xs[i] + h <= xs[j]
  {
    if i + 1 < j {
      Gap(xs, h, i, j - 1);
    }
  }

  lemma {:induction false} SampleBelow(xs: seq<real>, h: real, b: real, n: nat) returns (j: nat)
    requires EvenlySpaced(xs, h) && n < |xs| && xs[0] <= b < xs[n] + h
    ensures j <= n && xs[j] <= b < xs[j] + h
    decreases n
  {
    if b < xs[n] {
      j := SampleBelow(xs, h, b, n - 1);
    } else {
      j := n;
    }
  }

  lemma SpreadOccupies(xs: seq<real>, h: real, c: seq<real>, i: nat)
    requires EvenlySpaced(xs, h) && Spread(c, xs, h) && i < |c|
    ensures Occupied(Assign(xs, c), i)
  {
    var e, last := Midpoints(c), |xs| - 1;
    var s: nat;
    if i == |c| - 1 {
      s := last;
      if i > 0 {
        assert c[i - 1] < c[i];
        assert e[i - 1] < xs[s];
      }
    } else {
      s := SampleBelow(xs, h, e[i], last);
      if i > 0 {
        assert Apart(c, i, h);
        assert e[i] - e[i - 1] == (c[i + 1] - c[i - 1]) / 2.0;
        assert e[i - 1] < xs[s];
      }
    }
    BucketIs(xs[s], c, i);
    assert Assign(xs, c)[s] == i;
  }

  lemma BucketIs(x: real, c: seq<real>, i: nat)
    requires c != [] && Increasing(c) && i < |c|
    requires i > 0 ==> Midpoints(c)[i - 1] < x
    requires i < |c| - 1 ==> x <= Midpoints(c)[i]
    ensures Bucketize(x, Midpoints(c)) == i
  {
    var b := Bucketize(x, Midpoints(c));
    if b < i {
      MidpointsOrdered(c, b, i - 1);
    }
  }

  lemma CellsInOrder(xs: seq<real>, h: real, c: seq<real>, s: nat, t: nat)
    requires EvenlySpaced(xs, h) && c != [] && Increasing(c) && s < |xs| && t < |xs|
    requires Assign(xs, c)[s] < Assign(xs, c)[t]
    ensures xs[s] + h <= xs[t]
  {
    assert xs[s] <= Midpoints(c)[Assign(xs, c)[s]] < xs[t];
    if t < s {
      Gap(xs, h, t, s);
    } else if s < t {
      Gap(xs, h, s, t);
    }
  }

  lemma SamplesInRange(xs: seq<real>, h: real, s: nat)
    requires EvenlySpaced(xs, h) && s < |xs|
    ensures xs[0] <= xs[s] <= xs[|xs| - 1]
  {
    if 0 < s {
      Gap(xs, h, 0, s);
    }
    if s < |xs| - 1 {
      Gap(xs, h, s, |xs| - 1);
    }
  }

  lemma SpreadKept(xs: seq<real>, w: seq<real>, h: real, c: seq<real>)
    requires |xs| == |w| && Positive(w) && EvenlySpaced(xs, h) && Spread(c, xs, h)
    ensures Update(xs, w, c).Some? && Spread(Update(xs, w, c).value, xs, h)
  {
    forall i | 0 <= i < |c|
      ensures Occupied(Assign(xs, c), i)
    {
      SpreadOccupies(xs, h, c, i);
    }
    UpdateDefined(xs, w, c);
    UpdateIncreasing(xs, w, c);
    CentroidsInRange(xs, w, h, c);
    forall i | 1 <= i < |c| - 1
      ensures Apart(Update(xs, w, c).value, i, h)
    {
      NeighboursApart(xs, w, h, c, i);
    }
  }

  lemma CentroidsInRange(xs: seq<real>, w: seq<real>, h: real, c: seq<real>)
    requires |xs| == |w| && Positive(w) && EvenlySpaced(xs, h) && c != [] && Update(xs, w, c).Some?
    ensures xs[0] <= Update(xs, w, c).value[0] && Update(xs, w, c).value[|c| - 1] <= xs[|xs| - 1]
  {
    forall s | 0 <= s < |xs|
      ensures xs[0] <= xs[s] <= xs[|xs| - 1]
    {
      SamplesInRange(xs, h, s);
    }
    CentroidAbove(xs, w, Assign(xs, c), 0, xs[0], false);
    CentroidBelow(xs, w, Assign(xs, c), |c| - 1, xs[|xs| - 1]);
  }

  /** A cell's sample keeps its two neighbours' centroids 2h apart. */
  lemma NeighboursApart(xs: seq<real>, w: seq<real>, h: real, c: seq<real>, i: nat)
    requires |xs| == |w| && Positive(w) && EvenlySpaced(xs, h) && c != [] && Increasing(c)
    requires Update(xs, w, c).Some? && 1 <= i < |c| - 1
    ensures Apart(Update(xs, w, c).value, i, h)
  {
    var idx := Assign(xs, c);
    UpdateDefined(xs, w, c);
    assert Occupied(idx, i);
    var s :| 0 <= s < |idx| && idx[s] == i;
    forall t | 0 <= t < |idx| && idx[t] == i - 1
      ensures xs[t] <= xs[s] - h
    {
      CellsInOrder(xs, h, c, t, s);
    }
    CentroidBelow(xs, w, idx, i - 1, xs[s] - h);
    forall t | 0 <= t < |idx| && idx[t] == i + 1
      ensures xs[s] + h <= xs[t]
    {
      CellsInOrder(xs, h, c, s, t);
    }
    CentroidAbove(xs, w, idx, i + 1, xs[s] + h, false);
  }

  lemma {:induction false} GridRunDefined(xs: seq<real>, w: seq<real>, h: real, c: seq<real>, n: nat)
    requires |xs| == |w| && Positive(w) && EvenlySpaced(xs, h) && Spread(c, xs, h)
    ensures Run(xs, w, c, n).Some? && Spread(Run(xs, w, c, n).value, xs, h)
  {
    if n > 0 {
      GridRunDefined(xs, w, h, c, n - 1);
      SpreadKept(xs, w, h, Run(xs, w, c, n - 1).value);
    }
  }

  // ----- the source's own grid ------------------------------------------------------------------

  function Linspace(a: real, b: real, n: nat): (s: seq<real>)
    requires n >= 1
    ensures |s| == n
  {
    if n == 1 then [a] else seq(n, i requires 0 <= i < n => PointOf(a, (b - a) / (n - 1) as real, i))
  }

  function PointOf(a: real, step: real, i: nat): real {
    a + i as real * step
  }

  lemma LinspaceEven(a: real, b: real, n: nat)
    requires n >= 2 && a < b
    ensures EvenlySpaced(Linspace(a, b, n), (b - a) / (n - 1) as real)
    ensures Linspace(a, b, n)[0] == a && Linspace(a, b, n)[n - 1] == b
  {
    var step := (b - a) / (n - 1) as real;
    forall j | 0 < j < n
      ensures Linspace(a, b, n)[j] == Linspace(a, b, n)[j - 1] + step
    {
    }
  }

  /** A linspace inside another, of no smaller step, is spread over it. */
  lemma LinspaceSpread(a: real, b: real, n: nat, lo: real, hi: real, k: nat, h: real)
    requires n >= 2 && k >= 2 && a <= lo < hi <= b && h == (b - a) / (n - 1) as real
    requires (hi - lo) / (k - 1) as real >= h
    ensures EvenlySpaced(Linspace(a, b, n), h) && Spread(Linspace(lo, hi, k), Linspace(a, b, n), h)
  {
    var c, step := Linspace(lo, hi, k), (hi - lo) / (k - 1) as real;
    LinspaceEven(a, b, n);
    LinspaceEven(lo, hi, k);
    forall i, j | 0 <= i < j < k
      ensures c[i] < c[j]
    {
      Gap(c, step, i, j);
    }
    forall i | 1 <= i < |c| - 1
      ensures Apart(c, i, h)
    {
      assert c[i + 1] == c[i] + step && c[i] == c[i - 1] + step;
    }
  }

  const SAMPLES: nat := 400001
  const ROUNDS: nat := 300

  /** The sample grid. */
  function Grid(): (xs: seq<real>)
    ensures |xs| == SAMPLES
  {
    Linspace(-8.0, 8.0, SAMPLES)
  }

  /** The first codebook of k words. */
  function StartBook(k: nat): (c: seq<real>)
    requires k >= 1
    ensures |c| == k
  {
    Linspace(-2.5, 2.5, k)
  }

  /** Where the samples and the first codewords start and end; both are evenly spaced in between. */
  lemma GridAndStart(k: nat)
    requires k >= 1
    ensures |Grid()| == 400001 && Grid()[0] == -8.0 && Grid()[400000] == 8.0 && EvenlySpaced(Grid(), 16.0 / 400000.0)
    ensures |StartBook(k)| == k && StartBook(k)[0] == -2.5
    ensures k > 1 ==> StartBook(k)[k - 1] == 2.5 && EvenlySpaced(StartBook(k), 5.0 / (k - 1) as real)
  {
    LinspaceEven(-8.0, 8.0, SAMPLES);
    if k > 1 {
      LinspaceEven(-2.5, 2.5, k);
    }
  }

  lemma StartSpread(k: nat)
    requires 1 <= k <= 65536
    ensures EvenlySpaced(Grid(), 16.0 / 400000.0) && Spread(StartBook(k), Grid(), 16.0 / 400000.0)
  {
    if k == 1 {
      LinspaceEven(-8.0, 8.0, SAMPLES);
    } else {
      LinspaceSpread(-8.0, 8.0, SAMPLES, -2.5, 2.5, k, 16.0 / 400000.0);
    }
  }

  lemma TwoToSixteen()
    ensures TwoTo(16) == 65536 && TwoTo(17) == 131072
  {
    assert TwoTo(4) == 16;
    assert TwoTo(8) == 16 * TwoTo(4);
    assert TwoTo(12) == 16 * TwoTo(8);
    assert TwoTo(16) == 16 * TwoTo(12);
  }

  ghost predicate Filled(xs: seq<real>, c: seq<real>)
    requires c != []
  {
    forall i :: 0 <= i < |c| ==> Occupied(Assign(xs, c), i)
  }

  lemma SampleOf(xs: seq<real>, c: seq<real>, m: nat) returns (s: nat)
    requires c != [] && m < |c| && Filled(xs, c)
    ensures s < |xs| && Assign(xs, c)[s] == m
    ensures m > 0 ==> Midpoints(c)[m - 1] < xs[s]
    ensures m < |c| - 1 ==> xs[s] <= Midpoints(c)[m]
  {
    assert Occupied(Assign(xs, c), m);
    var t: nat :| t < |xs| && Assign(xs, c)[t] == m;
    s := t;
  }

  /** When every cell is filled, each further cell takes its samples a full step further up. */
  lemma {:induction false} CellsReach(xs: seq<real>, h: real, c: seq<real>, m: nat, n: nat, far: real) returns (s: nat)
    requires EvenlySpaced(xs, h) && c != [] && Increasing(c) && Filled(xs, c)
    requires 1 <= n <= m < |c| && n as real * h == far + h
    ensures s < |xs| && Assign(xs, c)[s] == m && xs[s] > Midpoints(c)[m - n] + far
    decreases n
  {
    hide EvenlySpaced, Increasing, Filled, Bucketize;
    s := SampleOf(xs, c, m);
    if n > 1 {
      var before := CellsReach(xs, h, c, m - 1, n - 1, far - h);
      CellsInOrder(xs, h, c, before, s);
    }
  }

  /** Filling every cell takes a codebook at least as long as its inner cells have steps. */
  lemma FilledSpans(xs: seq<real>, h: real, c: seq<real>, far: real)
    requires EvenlySpaced(xs, h) && |c| >= 3 && Increasing(c) && Filled(xs, c) && (|c| - 2) as real * h == far + h
    ensures far < Midpoints(c)[|c| - 2] - Midpoints(c)[0]
  {
    var s := CellsReach(xs, h, c, |c| - 2, |c| - 2, far);
    assert xs[s] <= Midpoints(c)[|c| - 2];
  }

  lemma EndMidpoints(c: seq<real>)
    requires |c| >= 3 && Increasing(c)
    ensures Midpoints(c)[|c| - 2] - Midpoints(c)[0] < c[|c| - 1] - c[0]
  {
    assert c[|c| - 2] < c[|c| - 1] && c[0] < c[1];
  }

  /** A codebook with more codewords than its range holds samples leaves a cell empty at once. */
  lemma TooManyCodewords(w: seq<real>, k: nat)
    requires k >= 131072 && |w| == SAMPLES && Positive(w)
    ensures Update(Grid(), w, StartBook(k)).None?
  {
    hide Linspace, Update, Midpoints, EvenlySpaced;
    var h := 16.0 / 400000.0;
    var xs, c := Grid(), StartBook(k);
    LinspaceEven(-8.0, 8.0, SAMPLES);
    LinspaceEven(-2.5, 2.5, k);
    LinspaceIncreasing(k);
    EndMidpoints(c);
    UpdateDefined(xs, w, c);
    if Update(xs, w, c).Some? {
      FilledSpans(xs, h, c, (k - 2) as real * h - h);
    }
  }

  lemma LinspaceIncreasing(k: nat)
    requires k >= 2
    ensures Increasing(Linspace(-2.5, 2.5, k))
  {
    LinspaceEven(-2.5, 2.5, k);
    var c := Linspace(-2.5, 2.5, k);
    forall i, j | 0 <= i < j < k
      ensures c[i] < c[j]
    {
      Gap(c, 5.0 / (k - 1) as real, i, j);
    }
  }

  /** The source's codebook is defined, for any positive sample weights, exactly up to 16 bits. */
  lemma CodebookDefinedIff(w: seq<real>, bits: nat)
    requires |w| == SAMPLES && Positive(w)
    ensures Run(Grid(), w, StartBook(TwoTo(bits)), 300).Some? <==> bits <= 16
  {
    hide Grid, StartBook;
    var k := TwoTo(bits);
    TwoToSixteen();
    if bits <= 16 {
      TwoToMonotone(bits, 16);
      StartSpread(k);
      GridRunDefined(Grid(), w, 16.0 / 400000.0, StartBook(k), ROUNDS);
    } else {
      TwoToMonotone(17, bits);
      TooManyCodewords(w, k);
      assert Run(Grid(), w, StartBook(k), 0) == Some(StartBook(k));
      assert Run(Grid(), w, StartBook(k), 1).None?;
      RunStaysUndefined(Grid(), w, StartBook(k), 1, ROUNDS);
    }
  }

  /** The source's iteration: up to 16 bits every round is defined, keeps the codebook increasing and does
      not raise the distortion. */
  lemma GaussianCodebook(w: seq<real>, bits: nat, n: nat)
    requires |w| == SAMPLES && Positive(w) && bits <= 16 && n < ROUNDS
    ensures var c := StartBook(TwoTo(bits));
            && Run(Grid(), w, c, n).Some? && Run(Grid(), w, c, n + 1).Some?
            && Increasing(Run(Grid(), w, c, n + 1).value)
            && Cost(Grid(), w, Run(Grid(), w, c, n + 1).value) <= Cost(Grid(), w, Run(Grid(), w, c, n).value)
  {
    hide Grid, StartBook;
    TwoToSixteen();
    TwoToMonotone(bits, 16);
    StartSpread(TwoTo(bits));
    GridRunDefined(Grid(), w, 16.0 / 400000.0, StartBook(TwoTo(bits)), n + 1);
    RunDescends(Grid(), w, StartBook(TwoTo(bits)), n, n + 1);
  }
}

/** Recurrences with carried state in numbered slots: whole-sequence scans, variable-length batches,
    single-token decode, and the per-token snapshots a speculative verify pass keeps. */
module SlotScan {
  import opened Wrappers

  /** One step maps a state and an input to an output and the next state. */
  type Step<!S, !X, !O> = (S, X) -> (O, S)

  // ----- scans ----------------------------------------------------------------------------------

  function Final<S, X, O>(step: Step<S, X, O>, s: S, xs: seq<X>): S {
    if xs == [] then s else Final(step, step(s, xs[0]).1, xs[1..])
  }

  function Outputs<S, X, O>(step: Step<S, X, O>, s: S, xs: seq<X>): (os: seq<O>)
    ensures |os| == |xs|
  {
    if xs == [] then [] else [step(s, xs[0]).0] + Outputs(step, step(s, xs[0]).1, xs[1..])
  }

  /** The state after each input. */
  function Snapshots<S, X, O>(step: Step<S, X, O>, s: S, xs: seq<X>): (ss: seq<S>)
    ensures |ss| == |xs|
  {
    if xs == [] then [] else [step(s, xs[0]).1] + Snapshots(step, step(s, xs[0]).1, xs[1..])
  }

  /** A scan may be cut anywhere: running xs then ys with the carried state is running xs + ys. */
  lemma {:induction false} ScanSplits<S, X, O>(step: Step<S, X, O>, s: S, xs: seq<X>, ys: seq<X>)
    ensures Final(step, s, xs + ys) == Final(step, Final(step, s, xs), ys)
    ensures Outputs(step, s, xs + ys) == Outputs(step, s, xs) + Outputs(step, Final(step, s, xs), ys)
  {
    if xs == [] {
      assert xs + ys == ys;
    } else {
      assert (xs + ys)[1..] == xs[1..] + ys;
      ScanSplits(step, step(s, xs[0]).1, xs[1..], ys);
    }
  }

  /** Snapshot t is the state after exactly t + 1 inputs. */
  lemma {:induction false} SnapshotIsPrefixState<S, X, O>(step: Step<S, X, O>, s: S, xs: seq<X>, t: nat)
    requires t < |xs|
    ensures Snapshots(step, s, xs)[t] == Final(step, s, xs[..t + 1])
  {
    var next := step(s, xs[0]).1;
    assert xs[..t + 1][1..] == xs[1..][..t];
    if t == 0 {
      assert Final(step, next, xs[1..][..0]) == next;
    } else {
      SnapshotIsPrefixState(step, next, xs[1..], t - 1);
    }
  }

  /** Rolling back is exact: installing snapshot accepted - 1 and going on gives the outputs and the
      state of a run that never saw the rejected inputs. */
  lemma RollbackIsExact<S, X, O>(step: Step<S, X, O>, s: S, drafted: seq<X>, accepted: nat, later: seq<X>)
    requires 1 <= accepted <= |drafted|
    ensures var installed := Snapshots(step, s, drafted)[accepted - 1];
            && Final(step, installed, later) == Final(step, s, drafted[..accepted] + later)
            && Outputs(step, s, drafted)[..accepted] + Outputs(step, installed, later)
                 == Outputs(step, s, drafted[..accepted] + later)
  {
    SnapshotIsPrefixState(step, s, drafted, accepted - 1);
    ScanSplits(step, s, drafted[..accepted], later);
    ScanSplits(step, s, drafted[..accepted], drafted[accepted..]);
    assert drafted == drafted[..accepted] + drafted[accepted..];
  }

  lemma LastSnapshotIsFinal<S, X, O>(step: Step<S, X, O>, s: S, xs: seq<X>)
    requires xs != []
    ensures Snapshots(step, s, xs)[|xs| - 1] == Final(step, s, xs)
  {
    SnapshotIsPrefixState(step, s, xs, |xs| - 1);
    assert xs[..|xs|] == xs;
  }

  // ----- batches --------------------------------------------------------------------------------

  /** The inputs of one head, out of rows that hold one input for every head. */
  function HeadOf<X>(rows: seq<seq<X>>, hv: nat): (xs: seq<X>)
    requires forall t :: 0 <= t < |rows| ==> hv < |rows[t]|
    ensures |xs| == |rows| && forall t :: 0 <= t < |rows| ==> xs[t] == rows[t][hv]
  {
    seq(|rows|, t requires 0 <= t < |rows| => rows[t][hv])
  }

  /** A packed batch: sequence n owns rows cu[n] .. cu[n + 1] and slot idx[n]. */
  datatype Batch<X> = Batch(heads: nat, rows: seq<seq<X>>, cu: seq<nat>, idx: seq<nat>, hasInit: seq<bool>) {
    ghost predicate Valid(slots: nat) {
      && |cu| == |idx| + 1 && |hasInit| == |idx|
      && (forall t :: 0 <= t < |rows| ==> |rows[t]| == heads)
      && (forall n, m :: 0 <= n <= m < |cu| ==> cu[n] <= cu[m] <= |rows|)
      && (forall n :: 0 <= n < |idx| ==> idx[n] < slots)
    }

    function Segment(n: nat): seq<seq<X>>
      requires n + 1 < |cu| && cu[n] <= cu[n + 1] <= |rows|
    {
      rows[cu[n]..cu[n + 1]]
    }

    /** The inputs of one head of one sequence. */
    function HeadSegment(n: nat, hv: nat): (xs: seq<X>)
      requires n + 1 < |cu| && cu[n] <= cu[n + 1] <= |rows| && hv < heads && forall t :: 0 <= t < |rows| ==> |rows[t]| == heads
      ensures |xs| == cu[n + 1] - cu[n] && forall t :: 0 <= t < |xs| ==> xs[t] == rows[cu[n] + t][hv]
    {
      HeadOf(Segment(n), hv)
    }
  }

  /** The state table's rows are slots, its columns heads. */
  ghost function Table<S>(state: array2<S>): (r: seq<seq<S>>)
    reads state
    ensures |r| == state.Length0 && forall i :: 0 <= i < |r| ==> |r[i]| == state.Length1
    ensures forall i, j :: 0 <= i < |r| && 0 <= j < state.Length1 ==> r[i][j] == state[i, j]
  {
    seq(state.Length0, i requires 0 <= i < state.Length0 reads state =>
      seq(state.Length1, j requires 0 <= j < state.Length1 reads state => state[i, j]))
  }

  ghost predicate Sized<S>(table: seq<seq<S>>, slots: nat, heads: nat) {
    |table| == slots && forall i :: 0 <= i < slots ==> |table[i]| == heads
  }

  function StartFrom<S>(zero: S, hasInit: bool, held: S): (s: S)
    ensures hasInit ==> s == held
    ensures !hasInit ==> s == zero
  {
    if hasInit then held else zero
  }

  /** What head hv of a slot holds after the first n sequences, one after the other, whatever slots
      they name. */
  ghost function CellAfter<S, X, O>(
    step: Step<S, X, O>, zero: S, b: Batch<X>, table: seq<seq<S>>, n: nat, slot: nat, hv: nat): S
    requires b.Valid(|table|) && Sized(table, |table|, b.heads) && n <= |b.idx| && slot < |table| && hv < b.heads
    decreases n, 0
  {
    if n == 0 then table[slot][hv] else
    if b.idx[n - 1] != slot then CellAfter(step, zero, b, table, n - 1, slot, hv) else
    Final(step, StartOf(step, zero, b, table, n - 1, hv), b.HeadSegment(n - 1, hv))
  }

  /** The state sequence n starts from: what its slot holds by then, or zero when it has no history. */
  ghost function StartOf<S, X, O>(
    step: Step<S, X, O>, zero: S, b: Batch<X>, table: seq<seq<S>>, n: nat, hv: nat): S
    requires b.Valid(|table|) && Sized(table, |table|, b.heads) && n < |b.idx| && hv < b.heads
    decreases n, 1
  {
    StartFrom(zero, b.hasInit[n], CellAfter(step, zero, b, table, n, b.idx[n], hv))
  }

  lemma {:induction false} ScanAt<S, X, O>(step: Step<S, X, O>, s: S, xs: seq<X>, i: nat)
    requires i < |xs|
    ensures Final(step, s, xs[..i + 1]) == step(Final(step, s, xs[..i]), xs[i]).1
    ensures Outputs(step, s, xs)[i] == step(Final(step, s, xs[..i]), xs[i]).0
    ensures Snapshots(step, s, xs)[i] == Final(step, s, xs[..i + 1])
  {
    var next := step(s, xs[0]).1;
    if i == 0 {
      assert xs[..1][1..] == [];
    } else {
      assert xs[..i + 1][1..] == xs[1..][..i] && xs[..i][1..] == xs[1..][..i - 1];
      ScanAt(step, next, xs[1..], i - 1);
    }
  }

  /** The buffers a batch writes fit it. */
  ghost predicate Fit<S, X, O>(b: Batch<X>, state: array2<S>, out: array2<O>, scratch: array3<S>) {
    && b.Valid(state.Length0) && state.Length1 == b.heads
    && out.Length0 == |b.rows| && out.Length1 == b.heads
    && scratch.Length1 == |b.idx| && scratch.Length2 == b.heads
    && (forall n :: 0 <= n < |b.idx| ==> b.cu[n + 1] - b.cu[n] <= scratch.Length0)
    && state as object != out && state as object != scratch && out as object != scratch
  }

  /** Head hv of sequence n, run from start, has written its outputs and its snapshots. */
  ghost predicate HeadWritten<S, X, O>(
    step: Step<S, X, O>, start: S, b: Batch<X>, n: nat, hv: nat, out: array2<O>, scratch: array3<S>)
    reads out, scratch
    requires n < |b.idx| && |b.cu| == |b.idx| + 1 && b.cu[n] <= b.cu[n + 1] <= |b.rows| == out.Length0
    requires hv < b.heads == out.Length1 == scratch.Length2 && scratch.Length1 == |b.idx|
    requires forall t :: 0 <= t < |b.rows| ==> |b.rows[t]| == b.heads
    requires b.cu[n + 1] - b.cu[n] <= scratch.Length0
  {
    var xs := HeadOf(b.Segment(n), hv);
    && (forall t :: b.cu[n] <= t < b.cu[n + 1] ==> out[t, hv] == Outputs(step, start, xs)[t - b.cu[n]])
    && (forall t :: 0 <= t < b.cu[n + 1] - b.cu[n] ==> scratch[t, n, hv] == Snapshots(step, start, xs)[t])
  }

  /** The innermost loop: one head of one sequence, token by token. */
  method ScanHead<S, X, O>(
    step: Step<S, X, O>, start: S, b: Batch<X>, n: nat, hv: nat, state: array2<S>, out: array2<O>, scratch: array3<S>)
    returns (s: S)
    requires Fit(b, state, out, scratch) && n < |b.idx| && hv < b.heads
    modifies out, scratch
    ensures s == Final(step, start, HeadOf(b.Segment(n), hv))
    ensures HeadWritten(step, start, b, n, hv, out, scratch)
    ensures forall t, h :: 0 <= t < out.Length0 && 0 <= h < b.heads && (h != hv || t < b.cu[n] || b.cu[n + 1] <= t) ==>
              out[t, h] == old(out[t, h])
    ensures forall t, m, h :: 0 <= t < scratch.Length0 && 0 <= m < |b.idx| && 0 <= h < b.heads && (m != n || h != hv) ==>
              scratch[t, m, h] == old(scratch[t, m, h])
  {
    ghost var xs := HeadOf(b.Segment(n), hv);
    ghost var outs, snaps := Outputs(step, start, xs), Snapshots(step, start, xs);
    s := start;
    var bos := b.cu[n];
    for t := bos to b.cu[n + 1]
      invariant s == Final(step, start, xs[..t - bos])
      invariant forall u :: bos <= u < t ==> out[u, hv] == outs[u - bos]
      invariant forall u :: 0 <= u < t - bos ==> scratch[u, n, hv] == snaps[u]
      invariant forall u, h :: 0 <= u < out.Length0 && 0 <= h < b.heads && (h != hv || u < bos || b.cu[n + 1] <= u) ==>
                  out[u, h] == old(out[u, h])
      invariant forall u, m, h :: 0 <= u < scratch.Length0 && 0 <= m < |b.idx| && 0 <= h < b.heads && (m != n || h != hv) ==>
                  scratch[u, m, h] == old(scratch[u, m, h])
    {
      ScanAt(step, start, xs, t - bos);
      var r := step(s, b.rows[t][hv]);
      s := r.1;
      out[t, hv] := r.0;
      scratch[t - bos, n, hv] := s;
    }
    assert xs[..b.cu[n + 1] - bos] == xs;
  }

  /** The loop over the heads of one sequence. */
  method ScanSequence<S, X, O>(
    step: Step<S, X, O>, zero: S, b: Batch<X>, n: nat, state: array2<S>, out: array2<O>, scratch: array3<S>)
    requires Fit(b, state, out, scratch) && n < |b.idx|
    modifies state, out, scratch
    ensures forall hv :: 0 <= hv < b.heads ==>
              state[b.idx[n], hv]
                == Final(step, StartFrom(zero, b.hasInit[n], old(state[b.idx[n], hv])), HeadOf(b.Segment(n), hv))
    ensures forall hv :: 0 <= hv < b.heads ==>
              HeadWritten(step, StartFrom(zero, b.hasInit[n], old(state[b.idx[n], hv])), b, n, hv, out, scratch)
    ensures forall i, h :: 0 <= i < state.Length0 && 0 <= h < b.heads && i != b.idx[n] ==> state[i, h] == old(state[i, h])
    ensures forall t, h :: 0 <= t < out.Length0 && 0 <= h < b.heads && (t < b.cu[n] || b.cu[n + 1] <= t) ==>
              out[t, h] == old(out[t, h])
    ensures forall t, m, h :: 0 <= t < scratch.Length0 && 0 <= m < |b.idx| && 0 <= h < b.heads && m != n ==>
              scratch[t, m, h] == old(scratch[t, m, h])
  {
    var slot := b.idx[n];
    ghost var row := Table(state)[slot];
    for hv := 0 to b.heads
      invariant forall h :: 0 <= h < hv ==>
                  state[slot, h] == Final(step, StartFrom(zero, b.hasInit[n], row[h]), HeadOf(b.Segment(n), h))
      invariant forall h :: 0 <= h < hv ==>
                  HeadWritten(step, StartFrom(zero, b.hasInit[n], row[h]), b, n, h, out, scratch)
      invariant forall i, h :: 0 <= i < state.Length0 && 0 <= h < b.heads && (i != slot || hv <= h) ==>
                  state[i, h] == old(state[i, h])
      invariant forall t, h :: 0 <= t < out.Length0 && 0 <= h < b.heads && (t < b.cu[n] || b.cu[n + 1] <= t) ==>
                  out[t, h] == old(out[t, h])
      invariant forall t, m, h :: 0 <= t < scratch.Length0 && 0 <= m < |b.idx| && 0 <= h < b.heads && m != n ==>
                  scratch[t, m, h] == old(scratch[t, m, h])
    {
      var start := StartFrom(zero, b.hasInit[n], state[slot, hv]);
      label Before:
      var s := ScanHead(step, start, b, n, hv, state, out, scratch);
      forall h | 0 <= h < hv
        ensures HeadWritten(step, StartFrom(zero, b.hasInit[n], row[h]), b, n, h, out, scratch)
      {
        assert old@Before(HeadWritten(step, StartFrom(zero, b.hasInit[n], row[h]), b, n, h, out, scratch));
      }
      state[slot, hv] := s;
    }
  }

  /** The reference loop of a prefill or a verify pass: state, out and scratch are filled in place. */
  method PrefillVerify<S, X, O>(
    step: Step<S, X, O>, zero: S, b: Batch<X>, state: array2<S>, out: array2<O>, scratch: array3<S>)
    requires Fit(b, state, out, scratch)
    modifies state, out, scratch
    ensures forall slot, hv :: 0 <= slot < state.Length0 && 0 <= hv < b.heads ==>
              state[slot, hv] == CellAfter(step, zero, b, old(Table(state)), |b.idx|, slot, hv)
    ensures forall n, hv :: 0 <= n < |b.idx| && 0 <= hv < b.heads ==>
              HeadWritten(step, StartOf(step, zero, b, old(Table(state)), n, hv), b, n, hv, out, scratch)
  {
    ghost var table := Table(state);
    for n := 0 to |b.idx|
      invariant forall slot, hv :: 0 <= slot < state.Length0 && 0 <= hv < b.heads ==>
                  state[slot, hv] == CellAfter(step, zero, b, table, n, slot, hv)
      invariant forall m, hv :: 0 <= m < n && 0 <= hv < b.heads ==>
                  HeadWritten(step, StartOf(step, zero, b, table, m, hv), b, m, hv, out, scratch)
    {
      label Before:
      ScanSequence(step, zero, b, n, state, out, scratch);
      forall m, hv | 0 <= m < n && 0 <= hv < b.heads
        ensures HeadWritten(step, StartOf(step, zero, b, table, m, hv), b, m, hv, out, scratch)
      {
        assert b.cu[m + 1] <= b.cu[n];
        assert old@Before(HeadWritten(step, StartOf(step, zero, b, table, m, hv), b, m, hv, out, scratch));
      }
    }
  }

  // ----- non-interference -----------------------------------------------------------------------

  ghost predicate Distinct(idx: seq<nat>) {
    forall n, m :: 0 <= n < m < |idx| ==> idx[n] != idx[m]
  }

  lemma {:induction false} CellOfUnnamedSlot<S, X, O>(
    step: Step<S, X, O>, zero: S, b: Batch<X>, table: seq<seq<S>>, n: nat, slot: nat, hv: nat)
    requires b.Valid(|table|) && Sized(table, |table|, b.heads) && n <= |b.idx| && slot < |table| && hv < b.heads
    requires forall m :: 0 <= m < n ==> b.idx[m] != slot
    ensures CellAfter(step, zero, b, table, n, slot, hv) == table[slot][hv]
  {
    if n > 0 {
      CellOfUnnamedSlot(step, zero, b, table, n - 1, slot, hv);
    }
  }

  lemma {:induction false} CellOfSequence<S, X, O>(
    step: Step<S, X, O>, zero: S, b: Batch<X>, table: seq<seq<S>>, k: nat, n: nat, hv: nat)
    requires b.Valid(|table|) && Sized(table, |table|, b.heads) && k < n <= |b.idx| && hv < b.heads && Distinct(b.idx)
    ensures CellAfter(step, zero, b, table, n, b.idx[k], hv)
         == Final(step, StartFrom(zero, b.hasInit[k], table[b.idx[k]][hv]), HeadOf(b.Segment(k), hv))
  {
    if k + 1 < n {
      CellOfSequence(step, zero, b, table, k, n - 1, hv);
    } else {
      CellOfUnnamedSlot(step, zero, b, table, k, b.idx[k], hv);
    }
  }

  /** Sequence k of a batch on its own. */
  function Alone<X>(b: Batch<X>, k: nat): Batch<X>
    requires k < |b.idx| == |b.hasInit| && |b.cu| == |b.idx| + 1 && b.cu[k] <= b.cu[k + 1] <= |b.rows|
  {
    Batch(b.heads, b.Segment(k), [0, b.cu[k + 1] - b.cu[k]], [b.idx[k]], [b.hasInit[k]])
  }

  /** Sequences of a batch do not interfere: with pairwise distinct slots each one starts from, and
      leaves in its slot, what it would have alone; other slots keep what they held, and a sequence
      without history never looks at its slot. */
  lemma BatchDoesNotInterfere<S, X, O>(
    step: Step<S, X, O>, zero: S, b: Batch<X>, table: seq<seq<S>>, k: nat, hv: nat)
    requires b.Valid(|table|) && Sized(table, |table|, b.heads) && Distinct(b.idx) && k < |b.idx| && hv < b.heads
    ensures Alone(b, k).Valid(|table|) && HeadOf(Alone(b, k).Segment(0), hv) == HeadOf(b.Segment(k), hv)
    ensures StartOf(step, zero, b, table, k, hv) == StartOf(step, zero, Alone(b, k), table, 0, hv)
    ensures CellAfter(step, zero, b, table, |b.idx|, b.idx[k], hv)
         == CellAfter(step, zero, Alone(b, k), table, 1, b.idx[k], hv)
    ensures forall slot :: 0 <= slot < |table| && slot !in b.idx ==>
              CellAfter(step, zero, b, table, |b.idx|, slot, hv) == table[slot][hv]
    ensures !b.hasInit[k] ==>
              CellAfter(step, zero, b, table, |b.idx|, b.idx[k], hv) == Final(step, zero, HeadOf(b.Segment(k), hv))
  {
    var a := Alone(b, k);
    assert a.Segment(0) == b.Segment(k);
    CellOfSequence(step, zero, b, table, k, |b.idx|, hv);
    CellOfSequence(step, zero, a, table, 0, 1, hv);
    CellOfUnnamedSlot(step, zero, b, table, k, b.idx[k], hv);
    forall slot | 0 <= slot < |table| && slot !in b.idx
      ensures CellAfter(step, zero, b, table, |b.idx|, slot, hv) == table[slot][hv]
    {
      CellOfUnnamedSlot(step, zero, b, table, |b.idx|, slot, hv);
    }
  }

  /** A sequence with history goes on from what its slot holds, one without from zero. */
  lemma HistoryIsCarried<S, X, O>(step: Step<S, X, O>, zero: S, b: Batch<X>, table: seq<seq<S>>, k: nat, hv: nat)
    requires b.Valid(|table|) && Sized(table, |table|, b.heads) && Distinct(b.idx) && k < |b.idx| && hv < b.heads
    ensures b.hasInit[k] ==>
      && StartOf(step, zero, b, table, k, hv) == table[b.idx[k]][hv]
      && CellAfter(step, zero, b, table, |b.idx|, b.idx[k], hv) == Final(step, table[b.idx[k]][hv], b.HeadSegment(k, hv))
    ensures !b.hasInit[k] ==>
      && StartOf(step, zero, b, table, k, hv) == zero
      && CellAfter(step, zero, b, table, |b.idx|, b.idx[k], hv) == Final(step, zero, b.HeadSegment(k, hv))
  {
    hide Final;
    CellOfSequence(step, zero, b, table, k, |b.idx|, hv);
    CellOfUnnamedSlot(step, zero, b, table, k, b.idx[k], hv);
  }

  /** Cutting a prompt in two: a batch on its first part, then one with history on the rest, leave the slot and
      the outputs that one batch on all of it would. */
  lemma TwoBatchesAreOne<S, X, O>(
    step: Step<S, X, O>, zero: S, first: Batch<X>, rest: Batch<X>, whole: Batch<X>,
    table: seq<seq<S>>, between: seq<seq<S>>, k: nat, m: nat, j: nat, hv: nat)
    requires first.Valid(|table|) && Sized(table, |table|, first.heads) && Distinct(first.idx) && k < |first.idx|
    requires rest.Valid(|table|) && Sized(between, |table|, rest.heads) && Distinct(rest.idx) && m < |rest.idx|
    requires whole.Valid(|table|) && Distinct(whole.idx) && j < |whole.idx| && first.heads == rest.heads == whole.heads
    requires hv < first.heads && first.idx[k] == rest.idx[m] == whole.idx[j] && rest.hasInit[m]
    requires whole.hasInit[j] == first.hasInit[k]
    requires whole.HeadSegment(j, hv) == first.HeadSegment(k, hv) + rest.HeadSegment(m, hv)
    requires between[rest.idx[m]][hv] == CellAfter(step, zero, first, table, |first.idx|, first.idx[k], hv)
    ensures CellAfter(step, zero, rest, between, |rest.idx|, rest.idx[m], hv)
         == CellAfter(step, zero, whole, table, |whole.idx|, whole.idx[j], hv)
    ensures Outputs(step, StartOf(step, zero, first, table, k, hv), first.HeadSegment(k, hv))
            + Outputs(step, StartOf(step, zero, rest, between, m, hv), rest.HeadSegment(m, hv))
         == Outputs(step, StartOf(step, zero, whole, table, j, hv), whole.HeadSegment(j, hv))
  {
    hide Final, Outputs, CellAfter, StartOf;
    HistoryIsCarried(step, zero, first, table, k, hv);
    HistoryIsCarried(step, zero, rest, between, m, hv);
    HistoryIsCarried(step, zero, whole, table, j, hv);
    var start := if first.hasInit[k] then table[first.idx[k]][hv] else zero;
    ScanSplits(step, start, first.HeadSegment(k, hv), rest.HeadSegment(m, hv));
  }

  /** Sequences of one batch that share a slot run one after the other: one with history goes on from where the
      last before it in that slot ended. */
  lemma {:induction false} SharedSlotGoesOn<S, X, O>(
    step: Step<S, X, O>, zero: S, b: Batch<X>, table: seq<seq<S>>, k: nat, m: nat, n: nat, hv: nat)
    requires b.Valid(|table|) && Sized(table, |table|, b.heads) && k < m < n <= |b.idx| && hv < b.heads
    requires b.idx[k] == b.idx[m] && b.hasInit[m] && forall i :: k < i < n && i != m ==> b.idx[i] != b.idx[k]
    ensures CellAfter(step, zero, b, table, n, b.idx[k], hv)
         == Final(step, StartOf(step, zero, b, table, k, hv), b.HeadSegment(k, hv) + b.HeadSegment(m, hv))
  {
    hide Final;
    if m + 1 < n {
      SharedSlotGoesOn(step, zero, b, table, k, m, n - 1, hv);
    } else {
      LastInSlot(step, zero, b, table, k, m, hv);
      ScanSplits(step, StartOf(step, zero, b, table, k, hv), b.HeadSegment(k, hv), b.HeadSegment(m, hv));
    }
  }

  lemma {:induction false} LastInSlot<S, X, O>(
    step: Step<S, X, O>, zero: S, b: Batch<X>, table: seq<seq<S>>, k: nat, n: nat, hv: nat)
    requires b.Valid(|table|) && Sized(table, |table|, b.heads) && k < n <= |b.idx| && hv < b.heads
    requires forall i :: k < i < n ==> b.idx[i] != b.idx[k]
    ensures CellAfter(step, zero, b, table, n, b.idx[k], hv)
         == Final(step, StartOf(step, zero, b, table, k, hv), b.HeadSegment(k, hv))
  {
    hide Final;
    if k + 1 < n {
      LastInSlot(step, zero, b, table, k, n - 1, hv);
    }
  }

  // ----- decode ---------------------------------------------------------------------------------

  /** What head hv of a slot holds after the first n requests of a decode step; slot 0 and below is the
      null slot, which is skipped. */
  ghost function DecodedCell<S, X, O>(
    step: Step<S, X, O>, rows: seq<seq<X>>, idx: seq<int>, table: seq<seq<S>>, n: nat, slot: nat, hv: nat): S
    requires n <= |idx| == |rows| && slot < |table| && hv < |table[slot]|
    requires forall i :: 0 <= i < |rows| ==> hv < |rows[i]|
  {
    if n == 0 then table[slot][hv] else
    var before := DecodedCell(step, rows, idx, table, n - 1, slot, hv);
    if idx[n - 1] == slot && slot > 0 then step(before, rows[n - 1][hv]).1 else before
  }

  /** Where a request on the null slot reads from: nowhere, when such requests are skipped, or a fixed
      state it does not write back. */
  type NullState<S> = Option<S>

  /** The output of request i: what its slot holds by then, stepped; a skipped request keeps what the
      buffer held. */
  ghost function DecodedOutput<S, X, O>(
    step: Step<S, X, O>, nullSlot: NullState<S>, rows: seq<seq<X>>, idx: seq<int>, table: seq<seq<S>>, i: nat, hv: nat, held: O): O
    requires i < |idx| == |rows| && idx[i] < |table| && forall n :: 0 <= n < |table| ==> hv < |table[n]|
    requires forall n :: 0 <= n < |rows| ==> hv < |rows[n]|
  {
    if idx[i] > 0 then step(DecodedCell(step, rows, idx, table, i, idx[i], hv), rows[i][hv]).0
    else if nullSlot.Some? then step(nullSlot.value, rows[i][hv]).0
    else held
  }

  /** The reference loop of a decode step: one token per request. */
  method Decode<S, X, O>(
    step: Step<S, X, O>, nullSlot: NullState<S>, rows: seq<seq<X>>, heads: nat, idx: seq<int>, state: array2<S>, out: array2<O>)
    requires |idx| == |rows| == out.Length0 && state.Length1 == heads == out.Length1
    requires (forall i :: 0 <= i < |rows| ==> |rows[i]| == heads) && forall i :: 0 <= i < |idx| ==> idx[i] < state.Length0
    requires state as object != out
    modifies state, out
    ensures forall slot, hv :: 0 <= slot < state.Length0 && 0 <= hv < heads ==>
              state[slot, hv] == DecodedCell(step, rows, idx, old(Table(state)), |idx|, slot, hv)
    ensures forall i, hv :: 0 <= i < |idx| && 0 <= hv < heads ==>
              out[i, hv] == DecodedOutput(step, nullSlot, rows, idx, old(Table(state)), i, hv, old(out[i, hv]))
  {
    ghost var table := Table(state);
    for n := 0 to |idx|
      invariant forall slot, hv :: 0 <= slot < state.Length0 && 0 <= hv < heads ==>
                  state[slot, hv] == DecodedCell(step, rows, idx, table, n, slot, hv)
      invariant forall i, hv :: n <= i < |idx| && 0 <= hv < heads ==> out[i, hv] == old(out[i, hv])
      invariant forall i, hv :: 0 <= i < n && 0 <= hv < heads ==>
                  out[i, hv] == DecodedOutput(step, nullSlot, rows, idx, table, i, hv, old(out[i, hv]))
    {
      var slot := idx[n];
      for hv := 0 to heads
        invariant forall i, h :: 0 <= i < state.Length0 && 0 <= h < heads ==>
                    state[i, h] == DecodedCell(step, rows, idx, table, if h < hv then n + 1 else n, i, h)
        invariant forall i, h :: n <= i < |idx| && 0 <= h < heads && (i > n || hv <= h) ==> out[i, h] == old(out[i, h])
        invariant forall i, h :: 0 <= i <= n && 0 <= h < heads && (i < n || h < hv) ==>
                    out[i, h] == DecodedOutput(step, nullSlot, rows, idx, table, i, h, old(out[i, h]))
      {
        if slot > 0 {
          var r := step(state[slot, hv], rows[n][hv]);
          out[n, hv] := r.0;
          state[slot, hv] := r.1;
        } else if nullSlot.Some? {
          out[n, hv] := step(nullSlot.value, rows[n][hv]).0;
        }
      }
    }
  }

  lemma {:induction false} DecodeLeavesOthers<S, X, O>(
    step: Step<S, X, O>, rows: seq<seq<X>>, idx: seq<int>, table: seq<seq<S>>, n: nat, slot: nat, hv: nat)
    requires n <= |idx| == |rows| && slot < |table| && hv < |table[slot]|
    requires forall i :: 0 <= i < |rows| ==> hv < |rows[i]|
    requires slot == 0 || forall m :: 0 <= m < n ==> idx[m] != slot
    ensures DecodedCell(step, rows, idx, table, n, slot, hv) == table[slot][hv]
  {
    if n > 0 {
      DecodeLeavesOthers(step, rows, idx, table, n - 1, slot, hv);
    }
  }

  /** With distinct positive slots each request decodes from its own slot as a one-token prefill with
      history would, the null slot and every unnamed slot keep their contents. */
  lemma {:induction false} DecodeDoesNotInterfere<S, X, O>(
    step: Step<S, X, O>, rows: seq<seq<X>>, idx: seq<int>, table: seq<seq<S>>, k: nat, n: nat, hv: nat)
    requires k < n <= |idx| == |rows| && 0 < idx[k] < |table| && hv < |table[idx[k]]|
    requires forall i :: 0 <= i < |rows| ==> hv < |rows[i]|
    requires forall i, j :: 0 <= i < j < |idx| && idx[i] > 0 ==> idx[i] != idx[j]
    ensures DecodedCell(step, rows, idx, table, k, idx[k], hv) == table[idx[k]][hv]
    ensures DecodedCell(step, rows, idx, table, n, idx[k], hv) == Final(step, table[idx[k]][hv], HeadOf([rows[k]], hv))
  {
    if k + 1 < n {
      DecodeDoesNotInterfere(step, rows, idx, table, k, n - 1, hv);
    } else {
      forall m | 0 <= m < k
        ensures idx[m] != idx[k]
      {
        assert idx[m] > 0 ==> idx[m] != idx[k];
      }
      DecodeLeavesOthers(step, rows, idx, table, k, idx[k], hv);
      assert HeadOf([rows[k]], hv)[1..] == [];
    }
  }

  /** What head hv of the first n requests on a slot is given. */
  function InputsFor<X>(rows: seq<seq<X>>, idx: seq<int>, n: nat, slot: int, hv: nat): seq<X>
    requires n <= |idx| == |rows| && forall i :: 0 <= i < |rows| ==> hv < |rows[i]|
  {
    if n == 0 then [] else
    InputsFor(rows, idx, n - 1, slot, hv) + (if idx[n - 1] == slot then [rows[n - 1][hv]] else [])
  }

  /** Requests on one slot are served in order, each from where the one before left it. */
  lemma {:induction false} RequestsInOrder<S, X, O>(
    step: Step<S, X, O>, rows: seq<seq<X>>, idx: seq<int>, table: seq<seq<S>>, n: nat, slot: nat, hv: nat)
    requires n <= |idx| == |rows| && 0 < slot < |table| && hv < |table[slot]|
    requires forall i :: 0 <= i < |rows| ==> hv < |rows[i]|
    ensures DecodedCell(step, rows, idx, table, n, slot, hv) == Final(step, table[slot][hv], InputsFor(rows, idx, n, slot, hv))
  {
    hide Final;
    if n > 0 {
      RequestsInOrder(step, rows, idx, table, n - 1, slot, hv);
      var before := InputsFor(rows, idx, n - 1, slot, hv);
      if idx[n - 1] == slot {
        ScanSplits(step, table[slot][hv], before, [rows[n - 1][hv]]);
        FinalOfOne(step, Final(step, table[slot][hv], before), rows[n - 1][hv]);
      } else {
        assert before + [] == before;
      }
    } else {
      FinalOfNone(step, table[slot][hv]);
    }
  }

  lemma FinalOfNone<S, X, O>(step: Step<S, X, O>, s: S)
    ensures Final(step, s, []) == s
  {
  }

  lemma FinalOfOne<S, X, O>(step: Step<S, X, O>, s: S, x: X)
    ensures Final(step, s, [x]) == step(s, x).1
  {
    assert [x][1..] == [];
  }

  /** Each output is that of its own step; a null request outputs from the null state, or leaves the buffer as
      it was. */
  lemma OutputOfRequest<S, X, O>(
    step: Step<S, X, O>, nullSlot: NullState<S>, rows: seq<seq<X>>, idx: seq<int>, table: seq<seq<S>>, i: nat, hv: nat, held: O)
    requires i < |idx| == |rows| && idx[i] < |table| && forall n :: 0 <= n < |table| ==> hv < |table[n]|
    requires forall n :: 0 <= n < |rows| ==> hv < |rows[n]|
    ensures var o := DecodedOutput(step, nullSlot, rows, idx, table, i, hv, held);
      && (idx[i] > 0 ==> o == step(Final(step, table[idx[i]][hv], InputsFor(rows, idx, i, idx[i], hv)), rows[i][hv]).0)
      && (idx[i] <= 0 && nullSlot.Some? ==> o == step(nullSlot.value, rows[i][hv]).0)
      && (idx[i] <= 0 && nullSlot.None? ==> o == held)
  {
    if idx[i] > 0 {
      RequestsInOrder(step, rows, idx, table, i, idx[i], hv);
    }
  }

  /** Decoding one token after another is one scan over all of them. */
  lemma {:induction false} TokenByToken<S, X, O>(step: Step<S, X, O>, states: seq<S>, xs: seq<X>)
    requires |states| == |xs| + 1
    requires forall t :: 0 <= t < |xs| ==> states[t + 1] == Final(step, states[t], [xs[t]])
    ensures states[|xs|] == Final(step, states[0], xs)
    ensures forall t :: 0 <= t < |xs| ==> Outputs(step, states[0], xs)[t] == step(states[t], xs[t]).0
  {
    if xs != [] {
      TokenByToken(step, states[1..], xs[1..]);
      assert [xs[0]][1..] == [];
      assert Final(step, states[0], [xs[0]]) == step(states[0], xs[0]).1;
      forall t | 0 <= t < |xs|
        ensures Outputs(step, states[0], xs)[t] == step(states[t], xs[t]).0
      {
        assert t > 0 ==> xs[t] == xs[1..][t - 1] && states[t] == states[1..][t - 1];
      }
    }
  }
}

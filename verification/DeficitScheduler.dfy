/** The fixture builder: cut sources into segments, then interleave them by always taking from the
    source furthest below its share. */
module DeficitScheduler {
  import opened RealArithmetic

  // ----- segments -------------------------------------------------------------------------------

  function Concat(parts: seq<string>): string {
    if parts == [] then "" else parts[0] + Concat(parts[1..])
  }

  lemma {:induction false} ConcatAppend(parts: seq<string>, last: string)
    ensures Concat(parts + [last]) == Concat(parts) + last
  {
    if parts == [] {
      assert Concat([last]) == last + Concat([last][1..]);
    } else {
      assert (parts + [last])[1..] == parts[1..] + [last];
      ConcatAppend(parts[1..], last);
    }
  }

  function Flatten(groups: seq<seq<string>>): seq<string> {
    if groups == [] then [] else groups[0] + Flatten(groups[1..])
  }

  lemma {:induction false} FlattenAppend(groups: seq<seq<string>>, last: seq<string>)
    ensures Flatten(groups + [last]) == Flatten(groups) + last
  {
    if groups == [] {
      assert Flatten([last]) == last + Flatten([last][1..]);
      assert [last][1..] == [] && groups + [last] == [last];
    } else {
      assert (groups + [last])[1..] == groups[1..] + [last];
      FlattenAppend(groups[1..], last);
      assert groups[0] + (Flatten(groups[1..]) + last) == (groups[0] + Flatten(groups[1..])) + last;
    }
  }

  /** A group of whole lines that reaches the size no earlier than with its last line. */
  ghost predicate IsGroup(g: seq<string>, size: nat) {
    g != [] && (|g| == 1 || |Concat(g[..|g| - 1])| < size)
  }

  /** The pieces are the lines in groups: no line is torn, lost or moved, and only the last group may fall
      short of the size. */
  ghost predicate IsCut(groups: seq<seq<string>>, lines: seq<string>, size: nat, out: seq<string>) {
    && Flatten(groups) == lines && |out| == |groups|
    && forall i :: 0 <= i < |out| ==>
         out[i] == Concat(groups[i]) && IsGroup(groups[i], size) && (i < |out| - 1 ==> size <= |out[i]|)
  }

  /** Cut lines into pieces of about the size, never inside a line. */
  method Cut(lines: seq<string>, size: nat) returns (out: seq<string>)
    ensures exists groups :: IsCut(groups, lines, size, out)
    ensures Concat(out) == Concat(lines)
  {
    hide Concat, Flatten;
    ghost var groups: seq<seq<string>> := [];
    out := [];
    var buf: seq<string>, n := [], 0;
    NothingYet(lines);
    for i := 0 to |lines|
      invariant Flatten(groups) + buf == lines[..i] && Concat(out) + Concat(buf) == Concat(lines[..i])
      invariant n == |Concat(buf)| && (buf != [] ==> n < size)
      invariant |out| == |groups|
      invariant forall k :: 0 <= k < |out| ==> out[k] == Concat(groups[k]) && IsGroup(groups[k], size) && size <= |out[k]|
    {
      AppendLine(out, buf, lines, i);
      assert (buf + [lines[i]])[..|buf|] == buf;
      assert Flatten(groups) + (buf + [lines[i]]) == lines[..i + 1];
      buf := buf + [lines[i]];
      n := n + |lines[i]|;
      assert IsGroup(buf, size);
      if n >= size {
        ConcatAppend(out, Concat(buf));
        FlattenAppend(groups, buf);
        groups := groups + [buf];
        out := out + [Concat(buf)];
        buf, n := [], 0;
        NothingYet(lines);
      }
    }
    assert lines[..|lines|] == lines;
    if buf != [] {
      assert buf == buf[..|buf| - 1] + [buf[|buf| - 1]];
      ConcatAppend(buf[..|buf| - 1], buf[|buf| - 1]);
      ConcatAppend(out, Concat(buf));
      FlattenAppend(groups, buf);
      groups := groups + [buf];
      out := out + [Concat(buf)];
    }
    assert IsCut(groups, lines, size, out);
  }

  lemma NothingYet(lines: seq<string>)
    ensures Concat([]) == "" && Flatten([]) == [] && Concat(lines[..0]) == ""
  {
  }

  lemma AppendLine(out: seq<string>, buf: seq<string>, lines: seq<string>, i: nat)
    requires i < |lines| && Concat(out) + Concat(buf) == Concat(lines[..i])
    ensures Concat(out) + Concat(buf + [lines[i]]) == Concat(lines[..i + 1])
    ensures |Concat(buf + [lines[i]])| == |Concat(buf)| + |lines[i]|
  {
    hide Concat;
    assert lines[..i + 1] == lines[..i] + [lines[i]];
    ConcatAppend(lines[..i], lines[i]);
    ConcatAppend(buf, lines[i]);
    assert Concat(out) + (Concat(buf) + lines[i]) == (Concat(out) + Concat(buf)) + lines[i];
  }

  /** Long enough, and nothing that looks like a credential. */
  predicate Keeps(piece: string, secret: string -> bool) {
    |piece| > 64 && !secret(piece)
  }

  /** Pieces too short, or that look like credentials, are dropped. */
  function Usable(pieces: seq<string>, secret: string -> bool): (r: seq<string>)
    ensures forall s :: s in r <==> s in pieces && |s| > 64 && !secret(s)
  {
    if pieces == [] then [] else
    (if Keeps(pieces[0], secret) then [pieces[0]] else []) + Usable(pieces[1..], secret)
  }

  /** Every piece is kept or dropped in its turn: what the first k + 1 pieces leave is what the first k do,
      followed by the next when it fits. */
  lemma {:induction false} UsableInTurn(pieces: seq<string>, secret: string -> bool, k: nat)
    requires k < |pieces|
    ensures Usable(pieces[..k + 1], secret)
         == Usable(pieces[..k], secret) + (if |pieces[k]| > 64 && !secret(pieces[k]) then [pieces[k]] else [])
  {
    assert pieces[..k + 1][1..] == pieces[1..][..k];
    if k > 0 {
      assert pieces[..k][1..] == pieces[1..][..k - 1];
      UsableInTurn(pieces[1..], secret, k - 1);
    } else {
      assert pieces[..1][1..] == [] && Usable([], secret) == [];
    }
  }

  // ----- the greedy loop ------------------------------------------------------------------------

  /** The loop's variables after some picks. */
  datatype State = State(cursor: seq<nat>, used: seq<nat>, chosen: seq<string>, total: nat)

  function Start(n: nat): State {
    State(seq(n, _ => 0), seq(n, _ => 0), [], 0)
  }

  ghost predicate Fits(pools: seq<seq<string>>, s: State) {
    && |s.cursor| == |s.used| == |pools|
    && forall i :: 0 <= i < |pools| ==> s.cursor[i] <= |pools[i]|
  }

  predicate Ready(pools: seq<seq<string>>, s: State, i: nat)
    requires i < |pools| == |s.cursor|
  {
    s.cursor[i] < |pools[i]|
  }

  function Take(pools: seq<seq<string>>, s: State, i: nat): State
    requires i < |pools| == |s.cursor| == |s.used| && Ready(pools, s, i)
  {
    var seg := pools[i][s.cursor[i]];
    State(s.cursor[i := s.cursor[i] + 1], s.used[i := s.used[i] + |seg|], s.chosen + [seg], s.total + |seg|)
  }

  function Deficit(weights: seq<real>, s: State, i: nat): real
    requires i < |weights| == |s.used|
  {
    weights[i] - (if s.total > 0 then s.used[i] as real / s.total as real else 0.0)
  }

  /** i is a source that still has segments and none such is further below its share; the first of
      equals wins. */
  ghost predicate IsBest(pools: seq<seq<string>>, weights: seq<real>, s: State, i: nat)
    requires |pools| == |weights| == |s.cursor| == |s.used|
  {
    && i < |pools| && Ready(pools, s, i)
    && forall j :: 0 <= j < |pools| && Ready(pools, s, j) ==>
         Deficit(weights, s, j) <= Deficit(weights, s, i) && (j < i ==> Deficit(weights, s, j) < Deficit(weights, s, i))
  }

  /** While nothing is chosen the best source is the first of the heaviest; from then on it is the first of
      those furthest behind their weight of the total, in characters. */
  lemma BestIff(pools: seq<seq<string>>, weights: seq<real>, s: State, i: nat)
    requires |pools| == |weights| == |s.cursor| == |s.used|
    ensures IsBest(pools, weights, s, i) <==>
      && i < |pools| && s.cursor[i] < |pools[i]|
      && forall j :: 0 <= j < |pools| && s.cursor[j] < |pools[j]| ==>
           var mine := if s.total == 0 then weights[i] else weights[i] * s.total as real - s.used[i] as real;
           var other := if s.total == 0 then weights[j] else weights[j] * s.total as real - s.used[j] as real;
           other <= mine && (j < i ==> other < mine)
  {
    if i < |pools| {
      var t := s.total as real;
      forall j | 0 <= j < |pools| && s.total > 0
        ensures Deficit(weights, s, j) <= Deficit(weights, s, i) <==> weights[j] * t - s.used[j] as real <= weights[i] * t - s.used[i] as real
        ensures Deficit(weights, s, j) < Deficit(weights, s, i) <==> weights[j] * t - s.used[j] as real < weights[i] * t - s.used[i] as real
      {
      }
    }
  }

  method PickBest(pools: seq<seq<string>>, weights: seq<real>, s: State) returns (best: int)
    requires Fits(pools, s) && |weights| == |pools|
    ensures best < 0 ==> forall i :: 0 <= i < |pools| ==> !Ready(pools, s, i)
    ensures best >= 0 ==> IsBest(pools, weights, s, best)
  {
    best := -1;
    var bestDeficit := 0.0;
    for i := 0 to |pools|
      invariant best < i
      invariant best < 0 ==> forall j :: 0 <= j < i ==> !Ready(pools, s, j)
      invariant best >= 0 ==> Ready(pools, s, best) && bestDeficit == Deficit(weights, s, best)
      invariant best >= 0 ==> forall j :: 0 <= j < i && Ready(pools, s, j) ==>
        Deficit(weights, s, j) <= bestDeficit && (j < best ==> Deficit(weights, s, j) < bestDeficit)
    {
      if Ready(pools, s, i) {
        var deficit := Deficit(weights, s, i);
        if best < 0 || deficit > bestDeficit {
          best, bestDeficit := i, deficit;
        }
      }
    }
  }

  /** The state a list of picks leads to, when every pick had a segment left. */
  ghost predicate Playable(pools: seq<seq<string>>, picks: seq<nat>)
    decreases |picks|, 0
  {
    picks != [] ==>
      var last, before := picks[|picks| - 1], picks[..|picks| - 1];
      Playable(pools, before) && last < |pools| && Ready(pools, Play(pools, before), last)
  }

  ghost function Play(pools: seq<seq<string>>, picks: seq<nat>): (s: State)
    requires Playable(pools, picks)
    ensures Fits(pools, s) && |s.chosen| == |picks|
    decreases |picks|, 1
  {
    if picks == [] then Start(|pools|) else
    Take(pools, Play(pools, picks[..|picks| - 1]), picks[|picks| - 1])
  }

  /** Every pick was the best one at its time. */
  ghost predicate Greedy(pools: seq<seq<string>>, weights: seq<real>, picks: seq<nat>)
    requires |weights| == |pools|
    decreases |picks|
  {
    picks != [] ==>
      var last, before := picks[|picks| - 1], picks[..|picks| - 1];
      Greedy(pools, weights, before) && Playable(pools, before) && IsBest(pools, weights, Play(pools, before), last)
  }

  /** The fixture opens with the heaviest source that has a segment, the first of equals. */
  lemma {:induction false} HeaviestFirst(pools: seq<seq<string>>, weights: seq<real>, picks: seq<nat>)
    requires |weights| == |pools| && picks != [] && Greedy(pools, weights, picks)
    ensures picks[0] < |pools| && pools[picks[0]] != []
    ensures forall j :: 0 <= j < |pools| && pools[j] != [] ==>
      weights[j] <= weights[picks[0]] && (j < picks[0] ==> weights[j] < weights[picks[0]])
    decreases |picks|
  {
    var before := picks[..|picks| - 1];
    if before == [] {
      var s := Play(pools, []);
      assert s == Start(|pools|);
      assert IsBest(pools, weights, s, picks[0]);
      BestIff(pools, weights, s, picks[0]);
    } else {
      HeaviestFirst(pools, weights, before);
    }
  }

  function Remaining(pools: seq<seq<string>>, cursor: seq<nat>): int
    requires |pools| == |cursor|
  {
    if pools == [] then 0 else |pools[0]| - cursor[0] + Remaining(pools[1..], cursor[1..])
  }

  lemma {:induction false} RemainingBounds(pools: seq<seq<string>>, cursor: seq<nat>, i: nat)
    requires |pools| == |cursor| && forall j :: 0 <= j < |pools| ==> cursor[j] <= |pools[j]|
    ensures Remaining(pools, cursor) >= 0
    ensures i < |pools| ==> Remaining(pools, cursor[i := cursor[i] + 1]) == Remaining(pools, cursor) - 1
  {
    if pools != [] {
      RemainingBounds(pools[1..], cursor[1..], if i == 0 then |pools| else i - 1);
      if 0 < i < |pools| {
        assert cursor[i := cursor[i] + 1][1..] == cursor[1..][i - 1 := cursor[i] + 1];
      } else if i == 0 {
        assert cursor[i := cursor[i] + 1][1..] == cursor[1..];
      }
    }
  }

  /** The builder's loop. It stops at the first segment that reaches the target, or when every source is
      used up. */
  method Build(pools: seq<seq<string>>, weights: seq<real>, target: nat) returns (s: State, ghost picks: seq<nat>)
    requires |weights| == |pools|
    ensures Greedy(pools, weights, picks) && Playable(pools, picks) && s == Play(pools, picks)
    ensures s.total >= target || forall i :: 0 <= i < |pools| ==> !Ready(pools, s, i)
    ensures picks != [] ==> Playable(pools, picks[..|picks| - 1]) && Play(pools, picks[..|picks| - 1]).total < target
  {
    s, picks := Start(|pools|), [];
    while s.total < target
      invariant Greedy(pools, weights, picks) && Playable(pools, picks) && s == Play(pools, picks)
      invariant picks != [] ==> Playable(pools, picks[..|picks| - 1]) && Play(pools, picks[..|picks| - 1]).total < target
      decreases Remaining(pools, s.cursor)
    {
      RemainingBounds(pools, s.cursor, 0);
      var best := PickBest(pools, weights, s);
      if best < 0 {
        break;
      }
      RemainingBounds(pools, s.cursor, best);
      assert (picks + [best])[..|picks|] == picks;
      picks := picks + [best];
      s := Take(pools, s, best);
    }
  }

  // ----- conservation ---------------------------------------------------------------------------

  function Sum(xs: seq<nat>): nat {
    if xs == [] then 0 else xs[0] + Sum(xs[1..])
  }

  lemma {:induction false} SumUpdate(xs: seq<nat>, i: nat, d: nat)
    requires i < |xs|
    ensures Sum(xs[i := xs[i] + d]) == Sum(xs) + d
  {
    if i == 0 {
      assert xs[0 := xs[0] + d][1..] == xs[1..];
    } else {
      assert xs[i := xs[i] + d][1..] == xs[1..][i - 1 := xs[i] + d];
      SumUpdate(xs[1..], i - 1, d);
    }
  }

  lemma {:induction false} SumOfZeros(n: nat)
    ensures Sum(seq(n, _ => 0)) == 0
  {
    if n > 0 {
      assert seq(n, _ => 0)[1..] == seq(n - 1, _ => 0);
      SumOfZeros(n - 1);
    }
  }

  function Count(picks: seq<nat>, i: nat): nat {
    if picks == [] then 0 else Count(picks[..|picks| - 1], i) + (if picks[|picks| - 1] == i then 1 else 0)
  }

  function LengthOf(segments: seq<string>): nat {
    if segments == [] then 0 else LengthOf(segments[..|segments| - 1]) + |segments[|segments| - 1]|
  }

  lemma PlayStep(pools: seq<seq<string>>, picks: seq<nat>)
    requires Playable(pools, picks) && picks != []
    ensures var last, before := picks[|picks| - 1], picks[..|picks| - 1];
            && Playable(pools, before) && last < |pools| && Ready(pools, Play(pools, before), last)
            && Play(pools, picks) == Take(pools, Play(pools, before), last)
  {
  }

  /** The total is the sum over the sources, and over the chosen segments. */
  lemma {:induction false} TotalsAgree(pools: seq<seq<string>>, picks: seq<nat>)
    requires Playable(pools, picks)
    ensures var s := Play(pools, picks); s.total == Sum(s.used) == LengthOf(s.chosen)
    decreases |picks|
  {
    if picks == [] {
      SumOfZeros(|pools|);
    } else {
      var last, before := picks[|picks| - 1], picks[..|picks| - 1];
      PlayStep(pools, picks);
      TotalsAgree(pools, before);
      hide Playable, Play;
      var s, t := Play(pools, before), Play(pools, picks);
      SumUpdate(s.used, last, |pools[last][s.cursor[last]]|);
      assert t.chosen[..|t.chosen| - 1] == s.chosen;
    }
  }

  /** Each source has been charged for exactly the segments its cursor has passed, one for each pick. */
  lemma {:induction false} SourcesAgree(pools: seq<seq<string>>, picks: seq<nat>, i: nat)
    requires Playable(pools, picks) && i < |pools|
    ensures var s := Play(pools, picks);
            s.cursor[i] == Count(picks, i) && s.used[i] == LengthOf(pools[i][..s.cursor[i]])
    decreases |picks|
  {
    if picks != [] {
      var last, before := picks[|picks| - 1], picks[..|picks| - 1];
      PlayStep(pools, picks);
      SourcesAgree(pools, before, i);
      hide Playable, Play;
      var s, t := Play(pools, before), Play(pools, picks);
      if i == last {
        assert pools[i][..t.cursor[i]][..s.cursor[i]] == pools[i][..s.cursor[i]];
      }
    }
  }

  /** Each source's segments come out in order and at most once: the k-th choice is the next segment of
      its source, the one numbered by how often that source was picked before. */
  lemma {:induction false} SegmentsInOrder(pools: seq<seq<string>>, picks: seq<nat>, k: nat)
    requires Playable(pools, picks) && k < |picks|
    ensures picks[k] < |pools| && Count(picks[..k], picks[k]) < |pools[picks[k]]|
    ensures Play(pools, picks).chosen[k] == pools[picks[k]][Count(picks[..k], picks[k])]
    decreases |picks|
  {
    var last, before := picks[|picks| - 1], picks[..|picks| - 1];
    PlayStep(pools, picks);
    if k < |before| {
      SegmentsInOrder(pools, before, k);
      assert picks[..k] == before[..k];
    } else {
      SourcesAgree(pools, before, last);
      assert picks[..k] == before;
    }
  }
}

/** Every prefix of the fixture is a mixture in roughly the target proportions. */
module SchedulerFairness {
  import opened DeficitScheduler
  import opened RealArithmetic

  function Total(xs: seq<real>): real {
    if xs == [] then 0.0 else xs[0] + Total(xs[1..])
  }

  /** The share a source actually converges to: its weight, plus an equal part of whatever weight belongs
      to sources that are missing from the fixture. */
  function Shares(weights: seq<real>): (es: seq<real>)
    ensures |es| == |weights|
  {
    seq(|weights|, i requires 0 <= i < |weights| => weights[i] + Missing(weights))
  }

  function Missing(weights: seq<real>): real {
    if weights == [] then 0.0 else (1.0 - Total(weights)) / |weights| as real
  }

  /** How far source i is behind its share, in characters. */
  function Behind(e: real, total: nat, used: nat): real {
    e * total as real - used as real
  }

  /** The rest of one segment of the greatest length, once the source's own share of it is taken off. */
  function Allowance(e: real, longest: nat): real {
    (1.0 - e) * longest as real
  }

  // ----- sums -----------------------------------------------------------------------------------

  lemma {:induction false} TotalShifted(xs: seq<real>, ys: seq<real>, c: real)
    requires |xs| == |ys| && forall i :: 0 <= i < |xs| ==> ys[i] == xs[i] + c
    ensures Total(ys) == Total(xs) + |xs| as real * c
  {
    if xs != [] {
      TotalShifted(xs[1..], ys[1..], c);
    }
  }

  lemma SharesSumToOne(weights: seq<real>)
    requires weights != []
    ensures Total(Shares(weights)) == 1.0
  {
    var n := |weights| as real;
    TotalShifted(weights, Shares(weights), Missing(weights));
    assert n * ((1.0 - Total(weights)) / n) == 1.0 - Total(weights);
  }

  lemma {:induction false} TotalAtLeast(xs: seq<real>, i: nat)
    requires i < |xs| && forall j :: 0 <= j < |xs| ==> xs[j] >= 0.0
    ensures 0.0 <= xs[i] <= Total(xs)
  {
    if i > 0 {
      TotalAtLeast(xs[1..], i - 1);
    } else if |xs| > 1 {
      TotalAtLeast(xs[1..], 0);
    }
  }

  lemma {:induction false} TotalNegative(xs: seq<real>)
    requires xs != [] && forall j :: 0 <= j < |xs| ==> xs[j] < 0.0
    ensures Total(xs) < 0.0
  {
    if |xs| > 1 {
      TotalNegative(xs[1..]);
    } else {
      assert Total(xs[1..]) == 0.0;
    }
  }

  /** With weights that are not negative and do not exceed 1 together, every share is between 0 and 1. */
  lemma SharesInRange(weights: seq<real>, i: nat)
    requires i < |weights| && Total(weights) <= 1.0 && forall j :: 0 <= j < |weights| ==> weights[j] >= 0.0
    ensures 0.0 <= Shares(weights)[i] <= 1.0
  {
    TotalAtLeast(weights, i);
    MissingInRange(weights);
  }

  lemma MissingInRange(weights: seq<real>)
    requires weights != [] && Total(weights) <= 1.0
    ensures 0.0 <= Missing(weights) <= 1.0 - Total(weights)
  {
  }

  function BehindAll(es: seq<real>, total: nat, used: seq<nat>): (r: seq<real>)
    requires |es| == |used|
    ensures |r| == |es|
  {
    seq(|es|, i requires 0 <= i < |es| => Behind(es[i], total, used[i]))
  }

  lemma {:induction false} BehindSum(es: seq<real>, total: nat, used: seq<nat>)
    requires |es| == |used|
    ensures Total(BehindAll(es, total, used)) == Total(es) * total as real - Sum(used) as real
  {
    if es != [] {
      assert BehindAll(es, total, used)[1..] == BehindAll(es[1..], total, used[1..]);
      BehindSum(es[1..], total, used[1..]);
    }
  }

  /** Nobody is behind or ahead on the whole. */
  lemma BehindBalances(pools: seq<seq<string>>, picks: seq<nat>, es: seq<real>)
    requires Playable(pools, picks) && |es| == |pools| && Total(es) == 1.0
    ensures Total(BehindAll(es, Play(pools, picks).total, Play(pools, picks).used)) == 0.0
  {
    TotalsAgree(pools, picks);
    BehindSum(es, Play(pools, picks).total, Play(pools, picks).used);
  }

  // ----- the bound ------------------------------------------------------------------------------

  /** No source had run out when any of the picks was made. */
  ghost predicate NeverExhausted(pools: seq<seq<string>>, picks: seq<nat>)
    decreases |picks|
  {
    picks != [] ==>
      var before := picks[..|picks| - 1];
      NeverExhausted(pools, before) && Playable(pools, before)
      && forall i :: 0 <= i < |pools| ==> Ready(pools, Play(pools, before), i)
  }

  ghost predicate SegmentsWithin(pools: seq<seq<string>>, longest: nat) {
    forall i, k :: 0 <= i < |pools| && 0 <= k < |pools[i]| ==> |pools[i][k]| <= longest
  }

  ghost predicate Weights(weights: seq<real>) {
    weights != [] && Total(weights) <= 1.0 && forall j :: 0 <= j < |weights| ==> weights[j] >= 0.0
  }

  lemma DeficitOrder(wi: real, wj: real, ui: nat, uj: nat, total: nat, c: real)
    requires total > 0 && wj - uj as real / total as real <= wi - ui as real / total as real
    ensures Behind(wj + c, total, uj) <= Behind(wi + c, total, ui)
  {
    var t := total as real;
    var a, b := ui as real / t, uj as real / t;
    assert a * t == ui as real && b * t == uj as real;
    ScaledBound(t, wj - b, wi - a);
  }

  lemma LargerDeficitIsFurtherBehind(weights: seq<real>, s: State, i: nat, j: nat)
    requires i < |weights| == |s.used| && j < |weights| && s.total > 0
    requires Deficit(weights, s, j) <= Deficit(weights, s, i)
    ensures Behind(Shares(weights)[j], s.total, s.used[j]) <= Behind(Shares(weights)[i], s.total, s.used[i])
  {
    hide Missing, Behind;
    DeficitOrder(weights[i], weights[j], s.used[i], s.used[j], s.total, Missing(weights));
  }

  /** The picked source is never ahead of its share. */
  lemma BestIsBehind(pools: seq<seq<string>>, weights: seq<real>, picks: seq<nat>, best: nat)
    requires |weights| == |pools| && weights != [] && Playable(pools, picks)
    requires IsBest(pools, weights, Play(pools, picks), best)
    requires forall i :: 0 <= i < |pools| ==> Ready(pools, Play(pools, picks), i)
    ensures Behind(Shares(weights)[best], Play(pools, picks).total, Play(pools, picks).used[best]) >= 0.0
  {
    hide Behind, Shares, Play, Playable, Deficit;
    var s, es := Play(pools, picks), Shares(weights);
    SharesSumToOne(weights);
    BehindBalances(pools, picks, es);
    var all := BehindAll(es, s.total, s.used);
    if s.total == 0 {
      TotalsAgree(pools, picks);
      NothingUsed(s.used, best);
      NothingBehind(es[best]);
    } else if all[best] < 0.0 {
      forall j | 0 <= j < |all|
        ensures all[j] < 0.0
      {
        LargerDeficitIsFurtherBehind(weights, s, best, j);
      }
      TotalNegative(all);
    }
  }

  lemma {:induction false} NothingUsed(used: seq<nat>, i: nat)
    requires Sum(used) == 0 && i < |used|
    ensures used[i] == 0
  {
    if i > 0 {
      NothingUsed(used[1..], i - 1);
    }
  }

  lemma NothingBehind(e: real)
    ensures Behind(e, 0, 0) == 0.0
  {
  }

  lemma BehindAfterOther(e: real, total: nat, used: nat, len: nat)
    requires e >= 0.0
    ensures Behind(e, total + len, used) >= Behind(e, total, used)
  {
    NonNegativeProduct(e, len as real);
  }

  lemma BehindAfterOwn(e: real, total: nat, used: nat, len: nat, longest: nat)
    requires e <= 1.0 && len <= longest && Behind(e, total, used) >= 0.0
    ensures Behind(e, total + len, used + len) >= -Allowance(e, longest)
  {
    ScaledBound(1.0 - e, len as real, longest as real);
  }

  /** No source gets ahead of its share by more than the rest of one segment. */
  lemma {:induction false} NeverFarAhead(
    pools: seq<seq<string>>, weights: seq<real>, picks: seq<nat>, longest: nat, i: nat)
    requires |weights| == |pools| && Weights(weights) && SegmentsWithin(pools, longest) && i < |pools|
    requires Greedy(pools, weights, picks) && Playable(pools, picks) && NeverExhausted(pools, picks)
    ensures Behind(Shares(weights)[i], Play(pools, picks).total, Play(pools, picks).used[i])
         >= -Allowance(Shares(weights)[i], longest)
    decreases |picks|
  {
    var e := Shares(weights)[i];
    SharesInRange(weights, i);
    if picks == [] {
      NothingBehind(e);
    } else {
      hide Behind, Shares, Allowance, Deficit;
      var last, before := picks[|picks| - 1], picks[..|picks| - 1];
      var s := Play(pools, before);
      var len := |pools[last][s.cursor[last]]|;
      NeverFarAhead(pools, weights, before, longest, i);
      if i == last {
        BestIsBehind(pools, weights, before, last);
        BehindAfterOwn(e, s.total, s.used[i], len, longest);
      } else {
        BehindAfterOther(e, s.total, s.used[i], len);
      }
    }
  }

  function Slack(es: seq<real>, total: nat, used: seq<nat>, longest: nat): (r: seq<real>)
    requires |es| == |used|
    ensures |r| == |es|
  {
    seq(|es|, i requires 0 <= i < |es| => Behind(es[i], total, used[i]) + Allowance(es[i], longest))
  }

  lemma SlackTail(es: seq<real>, total: nat, used: seq<nat>, longest: nat)
    requires |es| == |used| && es != []
    ensures Slack(es, total, used, longest)[1..] == Slack(es[1..], total, used[1..], longest)
    ensures BehindAll(es, total, used)[1..] == BehindAll(es[1..], total, used[1..])
  {
    hide Behind, Allowance;
  }

  /** The allowances of all sources together. */
  function Allowances(es: seq<real>, longest: nat): real {
    (|es| as real - Total(es)) * longest as real
  }

  lemma AllowancesOfShares(es: seq<real>, longest: nat)
    requires Total(es) == 1.0
    ensures Allowances(es, longest) == (|es| as real - 1.0) * longest as real
  {
  }

  lemma {:induction false} SlackSum(es: seq<real>, total: nat, used: seq<nat>, longest: nat)
    requires |es| == |used|
    ensures Total(Slack(es, total, used, longest))
         == Total(BehindAll(es, total, used)) + Allowances(es, longest)
  {
    if es != [] {
      hide Behind, Allowance, Allowances;
      SlackTail(es, total, used, longest);
      SlackSum(es[1..], total, used[1..], longest);
    }
  }

  /** So many segments of the greatest length, in characters. */
  function Segments(x: real, longest: nat): real {
    x * longest as real
  }

  lemma BoundsInSegments(e: real, n: real, longest: nat)
    ensures Allowance(e, longest) == Segments(1.0 - e, longest)
    ensures (n - 1.0) * longest as real - Allowance(e, longest) == Segments(n - 2.0 + e, longest)
  {
  }

  /** Fairness of every prefix: with no source used up, each source's characters are at most 1 - e segments
      ahead of its share of the total and at most n - 2 + e behind, however long the fixture has grown. */
  lemma EveryPrefixIsFair(pools: seq<seq<string>>, weights: seq<real>, picks: seq<nat>, longest: nat, i: nat)
    requires |weights| == |pools| && Weights(weights) && SegmentsWithin(pools, longest) && i < |pools|
    requires Greedy(pools, weights, picks) && Playable(pools, picks) && NeverExhausted(pools, picks)
    ensures var s, e := Play(pools, picks), Shares(weights)[i];
            -Segments(1.0 - e, longest) <= Behind(e, s.total, s.used[i]) <= Segments(|pools| as real - 2.0 + e, longest)
  {
    hide Play, Playable, Greedy, NeverExhausted, Behind, Shares, Allowance, Segments;
    var s, es := Play(pools, picks), Shares(weights);
    forall j | 0 <= j < |pools|
      ensures Behind(es[j], s.total, s.used[j]) >= -Allowance(es[j], longest)
    {
      NeverFarAhead(pools, weights, picks, longest, j);
    }
    SharesSumToOne(weights);
    BehindBalances(pools, picks, es);
    BalancedAndNotAhead(es, s.total, s.used, longest, i);
  }

  /** Where nobody is far ahead and all balances out, nobody is far behind. */
  lemma BalancedAndNotAhead(es: seq<real>, total: nat, used: seq<nat>, longest: nat, i: nat)
    requires i < |es| == |used| && Total(es) == 1.0 && Total(BehindAll(es, total, used)) == 0.0
    requires forall j :: 0 <= j < |es| ==> Behind(es[j], total, used[j]) >= -Allowance(es[j], longest)
    ensures -Segments(1.0 - es[i], longest) <= Behind(es[i], total, used[i]) <= Segments(|es| as real - 2.0 + es[i], longest)
  {
    hide Behind, Allowance, Allowances, Segments, BehindAll;
    TotalAtLeast(Slack(es, total, used, longest), i);
    SlackSum(es, total, used, longest);
    AllowancesOfShares(es, longest);
    BoundsInSegments(es[i], |es| as real, longest);
  }

  /** The shares are the configured weights exactly when these sum to 1, that is, when no source is
      missing; otherwise every source drifts from its weight in proportion to the total. */
  lemma DriftFromWeights(pools: seq<seq<string>>, weights: seq<real>, picks: seq<nat>, longest: nat, i: nat)
    requires |weights| == |pools| && Weights(weights) && SegmentsWithin(pools, longest) && i < |pools|
    requires Greedy(pools, weights, picks) && Playable(pools, picks) && NeverExhausted(pools, picks)
    ensures Shares(weights)[i] == weights[i] <==> Total(weights) == 1.0
    ensures var s := Play(pools, picks);
            Behind(weights[i], s.total, s.used[i])
              <= Segments(|pools| as real - 2.0 + Shares(weights)[i], longest) - Missing(weights) * s.total as real
  {
    hide Play, Playable, Greedy, NeverExhausted, Behind, Allowance, Segments;
    EveryPrefixIsFair(pools, weights, picks, longest, i);
    BehindSplits(weights[i], Missing(weights), Play(pools, picks).total, Play(pools, picks).used[i]);
  }

  /** The builder passes its target by less than one segment. */
  lemma OvershootIsWithinOneSegment(pools: seq<seq<string>>, picks: seq<nat>, target: nat, longest: nat)
    requires SegmentsWithin(pools, longest) && Playable(pools, picks) && picks != []
    requires Playable(pools, picks[..|picks| - 1]) && Play(pools, picks[..|picks| - 1]).total < target
    ensures Play(pools, picks).total < target + longest
  {
    PlayStep(pools, picks);
  }

  lemma BehindSplits(w: real, c: real, total: nat, used: nat)
    ensures Behind(w + c, total, used) == Behind(w, total, used) + c * total as real
  {
  }
}

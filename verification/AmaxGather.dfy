/** Gathering per-rank calibration maxima into one global table, and slicing it again at serve time. */
module AmaxGather {
  import opened RealArithmetic
  import opened Wrappers

  /** One row of heads for each layer. */
  type Table = seq<seq<real>>

  ghost predicate Sized(t: Table, layers: nat, heads: nat) {
    |t| == layers && forall l :: 0 <= l < layers ==> |t[l]| == heads
  }

  // ----- what a rank measures ---------------------------------------------------------------------

  /** The running maximum of one head over the observations, which are magnitudes. */
  function MaxAt(obs: seq<Table>, layers: nat, heads: nat, l: nat, h: nat): (m: real)
    requires l < layers && h < heads && Observations(obs, layers, heads)
    ensures m >= 0.0 && forall i :: 0 <= i < |obs| ==> obs[i][l][h] <= m
    ensures m == 0.0 || exists i :: 0 <= i < |obs| && obs[i][l][h] == m
  {
    if obs == [] then 0.0 else Larger(MaxAt(obs[..|obs| - 1], layers, heads, l, h), obs[|obs| - 1][l][h])
  }

  ghost predicate Observations(obs: seq<Table>, layers: nat, heads: nat) {
    forall i :: 0 <= i < |obs| ==> Sized(obs[i], layers, heads)
  }

  /** The table of a rank that owns `n` heads from `first` on. */
  function LocalAmax(obs: seq<Table>, layers: nat, heads: nat, first: nat, n: nat): (t: Table)
    requires Observations(obs, layers, heads)
    requires first + n <= heads
    ensures Sized(t, layers, n)
  {
    seq(layers, l requires 0 <= l < layers =>
      seq(n, j requires 0 <= j < n => MaxAt(obs, layers, heads, l, first + j)))
  }

  // ----- the gather -------------------------------------------------------------------------------

  function Zeros(t: Table): Table {
    seq(|t|, l requires 0 <= l < |t| => seq(|t[l]|, _ => 0.0))
  }

  /** The collective: every rank's buffer becomes the root's. */
  function Broadcast(bufs: seq<Table>, root: nat): (r: seq<Table>)
    requires root < |bufs|
    ensures |r| == |bufs|
  {
    seq(|bufs|, _ => bufs[root])
  }

  /** Element-wise maximum over the ranks' tables. */
  function MaxRows(rows: seq<Table>, layers: nat, heads: nat): (t: Table)
    requires rows != [] && forall r :: 0 <= r < |rows| ==> Sized(rows[r], layers, heads)
    ensures Sized(t, layers, heads)
    ensures forall l, h :: 0 <= l < layers && 0 <= h < heads ==> t[l][h] == MaxOver(rows, layers, heads, l, h)
  {
    seq(layers, l requires 0 <= l < layers => seq(heads, h requires 0 <= h < heads => MaxOver(rows, layers, heads, l, h)))
  }

  function MaxOver(rows: seq<Table>, layers: nat, heads: nat, l: nat, h: nat): (m: real)
    requires rows != [] && l < layers && h < heads && forall r :: 0 <= r < |rows| ==> Sized(rows[r], layers, heads)
    ensures forall r :: 0 <= r < |rows| ==> Sized(rows[r], layers, heads) && rows[r][l][h] <= m
    ensures exists r :: 0 <= r < |rows| && Sized(rows[r], layers, heads) && rows[r][l][h] == m
  {
    assert Sized(rows[|rows| - 1], layers, heads);
    if |rows| == 1 then rows[0][l][h] else Larger(MaxOver(rows[..|rows| - 1], layers, heads, l, h), rows[|rows| - 1][l][h])
  }

  /** The ranks' tables side by side, in rank order. */
  function SideBySide(rows: seq<Table>, layers: nat, heads: nat): Table
    requires forall r :: 0 <= r < |rows| ==> Sized(rows[r], layers, heads)
  {
    seq(layers, l requires 0 <= l < layers => JoinRow(rows, layers, heads, l))
  }

  function JoinRow(rows: seq<Table>, layers: nat, heads: nat, l: nat): seq<real>
    requires l < layers && forall r :: 0 <= r < |rows| ==> Sized(rows[r], layers, heads)
  {
    if rows == [] then [] else
    assert Sized(rows[|rows| - 1], layers, heads);
    JoinRow(rows[..|rows| - 1], layers, heads, l) + rows[|rows| - 1][l]
  }

  /** How many columns the ranks' tables have side by side, whether or not there is a layer. */
  function Columns(rows: seq<Table>, k: nat): nat {
    if rows == [] then 0 else Columns(rows[..|rows| - 1], k) + k
  }

  /** What one rank makes of the gathered rows; None is the failed shape assertion. */
  function Merge(rows: seq<Table>, local: Table, tp: nat, layers: nat, localHeads: nat, globalHeads: nat): Option<Table>
    requires tp >= 1 && (tp > 1 ==> |rows| == tp)
    requires forall r :: 0 <= r < |rows| ==> Sized(rows[r], layers, localHeads)
  {
    if tp == 1 then Some(local)
    else if localHeads == globalHeads then Some(MaxRows(rows, layers, localHeads))
    else if Columns(rows, localHeads) == globalHeads then Some(SideBySide(rows, layers, localHeads))
    else None
  }

  /** All ranks run the gather loop in lockstep, one broadcast per source. */
  method Gather(locals: seq<Table>, layers: nat, localHeads: nat, globalHeads: nat) returns (results: seq<Option<Table>>)
    requires locals != [] && forall r :: 0 <= r < |locals| ==> Sized(locals[r], layers, localHeads)
    ensures |results| == |locals|
    ensures forall r :: 0 <= r < |locals| ==>
              && (forall m :: 0 <= m < |locals| ==> Sized(locals[m], layers, localHeads))
              && results[r] == Merge(locals, locals[r], |locals|, layers, localHeads, globalHeads)
  {
    var tp := |locals|;
    var rows: seq<seq<Table>> := seq(tp, _ => []);
    for src := 0 to tp
      invariant |rows| == tp
      invariant forall r :: 0 <= r < tp ==> rows[r] == locals[..src]
    {
      var bufs := seq(tp, rank requires 0 <= rank < tp => if src == rank then locals[rank] else Zeros(locals[rank]));
      bufs := Broadcast(bufs, src);
      rows := seq(tp, rank requires 0 <= rank < tp && tp == |rows| == |bufs| => rows[rank] + [bufs[rank]]);
      assert locals[..src + 1] == locals[..src] + [locals[src]];
    }
    assert locals[..tp] == locals;
    results := seq(tp, rank requires 0 <= rank < tp && |rows| == tp && rows[rank] == locals =>
      Merge(rows[rank], locals[rank], tp, layers, localHeads, globalHeads));
  }

  // ----- independence of the sharding -------------------------------------------------------------

  lemma {:induction false} ColumnsOfEqual(rows: seq<Table>, k: nat)
    ensures Columns(rows, k) == |rows| * k
  {
    if rows != [] {
      ColumnsOfEqual(rows[..|rows| - 1], k);
      NextProduct(|rows|, k);
    }
  }

  /** Every row of the joined table has that many columns. */
  lemma {:induction false} JoinedLength(rows: seq<Table>, layers: nat, k: nat, l: nat)
    requires l < layers && forall r :: 0 <= r < |rows| ==> Sized(rows[r], layers, k)
    ensures |JoinRow(rows, layers, k, l)| == Columns(rows, k)
  {
    if rows != [] {
      assert Sized(rows[|rows| - 1], layers, k);
      JoinedLength(rows[..|rows| - 1], layers, k, l);
    }
  }

  lemma NextProduct(n: nat, k: nat)
    requires n > 0
    ensures n * k == (n - 1) * k + k
  {
  }

  lemma {:induction false} ProductOrder(r: nat, n: nat, k: nat)
    requires r < n
    ensures r * k + k <= n * k
  {
    NextProduct(n, k);
    if r < n - 1 {
      ProductOrder(r, n - 1, k);
    }
  }

  /** The gather succeeds exactly for one rank, full replication, or an even split. */
  lemma GatherDefined(rows: seq<Table>, local: Table, layers: nat, localHeads: nat, globalHeads: nat)
    requires rows != [] && forall r :: 0 <= r < |rows| ==> Sized(rows[r], layers, localHeads)
    ensures Merge(rows, local, |rows|, layers, localHeads, globalHeads).Some?
            <==> |rows| == 1 || localHeads == globalHeads || |rows| * localHeads == globalHeads
    ensures var t := Merge(rows, local, |rows|, layers, localHeads, globalHeads);
            |rows| > 1 && t.Some? ==> Sized(t.value, layers, globalHeads)
  {
    ColumnsOfEqual(rows, localHeads);
    forall l | 0 <= l < layers
      ensures |JoinRow(rows, layers, localHeads, l)| == Columns(rows, localHeads)
    {
      JoinedLength(rows, layers, localHeads, l);
    }
  }

  /** How many heads a rank gets, where replication is allowed; None is a failed assertion. */
  function DivEven(heads: nat, tp: nat): Option<nat>
    requires tp >= 1
  {
    if tp > heads then (if heads > 0 && tp % heads == 0 then Some(1) else None)
    else if heads % tp == 0 then Some(heads / tp)
    else None
  }

  /** Either every rank gets the same number of different heads, or there are a multiple of as many ranks as
      heads and each gets one. */
  lemma DivEvenIff(heads: nat, tp: nat, k: nat)
    requires tp >= 1
    ensures DivEven(heads, tp) == Some(k) <==>
      (tp <= heads && tp * k == heads) || (0 < heads < tp && k == 1 && exists m: nat :: m * heads == tp)
  {
    if tp <= heads {
      assert tp * (heads / tp) + heads % tp == heads;
      if tp * k == heads {
        EvenQuotient(tp, k, heads);
      }
    } else if heads > 0 {
      assert (tp / heads) * heads + tp % heads == tp;
      if m: nat :| m * heads == tp {
        EvenQuotient(heads, m, tp);
      }
    }
  }

  lemma EvenQuotient(d: nat, q: nat, n: nat)
    requires d > 0 && d * q == n
    ensures n % d == 0 && n / d == q
  {
    var r := n / d;
    assert n == d * r + n % d;
    ProductsApart(q, r, d);
  }

  lemma ProductsApart(q: nat, r: nat, d: nat)
    ensures q < r ==> q * d + d <= r * d
    ensures r < q ==> r * d + d <= q * d
  {
    if q < r {
      ProductOrder(q, r, d);
    } else if r < q {
      ProductOrder(r, q, d);
    }
  }

  /** Of the shardings the caches use, the gather takes exactly those with no more ranks than heads, and a
      single replicated head: heads replicated in groups fail its assertion. */
  lemma GatherOfShardsIff(rows: seq<Table>, local: Table, layers: nat, heads: nat, k: nat)
    requires rows != [] && DivEven(heads, |rows|) == Some(k) && forall r :: 0 <= r < |rows| ==> Sized(rows[r], layers, k)
    ensures Merge(rows, local, |rows|, layers, k, heads).Some? <==> |rows| <= heads || heads == 1
  {
    GatherDefined(rows, local, layers, k, heads);
    if |rows| <= heads {
      assert |rows| * (heads / |rows|) == heads;
    }
  }

  /** Rank r's table under an even split, for every rank. */
  function SplitTables(obs: seq<Table>, layers: nat, heads: nat, k: nat, n: nat): (rows: seq<Table>)
    requires Observations(obs, layers, heads)
    requires n * k <= heads
    ensures |rows| == n && forall r :: 0 <= r < n ==> Sized(rows[r], layers, k)
  {
    seq(n, r requires 0 <= r < n => (ProductOrder(r, n, k); LocalAmax(obs, layers, heads, r * k, k)))
  }

  lemma {:induction false} JoinedSplit(obs: seq<Table>, layers: nat, heads: nat, k: nat, n: nat, l: nat)
    requires Observations(obs, layers, heads) && n * k <= heads && l < layers
    ensures JoinRow(SplitTables(obs, layers, heads, k, n), layers, k, l) == LocalAmax(obs, layers, heads, 0, n * k)[l]
  {
    var rows := SplitTables(obs, layers, heads, k, n);
    if n > 0 {
      NextProduct(n, k);
      assert rows[..n - 1] == SplitTables(obs, layers, heads, k, n - 1);
      JoinedSplit(obs, layers, heads, k, n - 1, l);
      hide MaxAt;
      var m := (n - 1) * k;
      assert rows[n - 1] == LocalAmax(obs, layers, heads, m, k);
    }
  }

  /** An even split, gathered, is the table of the unsharded data: it does not depend on tp. */
  lemma SplitGathersToGlobal(obs: seq<Table>, layers: nat, heads: nat, k: nat, tp: nat, rank: nat)
    requires Observations(obs, layers, heads) && tp >= 1 && tp * k == heads && rank < tp
    ensures var rows := SplitTables(obs, layers, heads, k, tp);
            Merge(rows, rows[rank], tp, layers, k, heads) == Some(LocalAmax(obs, layers, heads, 0, heads))
  {
    var rows := SplitTables(obs, layers, heads, k, tp);
    var all := LocalAmax(obs, layers, heads, 0, heads);
    forall l | 0 <= l < layers
      ensures JoinRow(rows, layers, k, l) == all[l]
    {
      JoinedSplit(obs, layers, heads, k, tp, l);
    }
    if tp == 1 {
      assert k == heads;
      assert rows[0] == LocalAmax(obs, layers, heads, 0 * k, k);
      assert 0 * k == 0;
    } else if k == heads {
      assert (tp - 1) * heads == 0 by { NextProduct(tp, heads); }
      assert MaxRows(rows, layers, heads) == all;
    } else {
      ColumnsOfEqual(rows, k);
      assert SideBySide(rows, layers, k) == all;
    }
  }

  /** Full replication gathers to the same table. */
  lemma ReplicatedGathersToGlobal(obs: seq<Table>, layers: nat, heads: nat, tp: nat)
    requires Observations(obs, layers, heads) && tp >= 1
    ensures var all := LocalAmax(obs, layers, heads, 0, heads);
            Merge(seq(tp, _ => all), all, tp, layers, heads, heads) == Some(all)
  {
    var all := LocalAmax(obs, layers, heads, 0, heads);
    var rows := seq(tp, _ => all);
    if tp > 1 {
      forall l, h | 0 <= l < layers && 0 <= h < heads
        ensures MaxRows(rows, layers, heads)[l][h] == all[l][h]
      {
      }
      forall l | 0 <= l < layers
        ensures MaxRows(rows, layers, heads)[l] == all[l]
      {
      }
      assert MaxRows(rows, layers, heads) == all;
    }
  }

  /** The tables the ranks measure: consecutive heads for each, or all of a single replicated head. */
  function RankTables(obs: seq<Table>, layers: nat, heads: nat, tp: nat, k: nat): (rows: seq<Table>)
    requires Observations(obs, layers, heads) && tp >= 1 && DivEven(heads, tp) == Some(k) && (tp <= heads || heads == 1)
    ensures |rows| == tp && forall r :: 0 <= r < tp ==> Sized(rows[r], layers, k)
  {
    if tp <= heads then
      assert tp * (heads / tp) == heads;
      SplitTables(obs, layers, heads, k, tp)
    else
      var all := LocalAmax(obs, layers, heads, 0, heads);
      seq(tp, _ => all)
  }

  /** Calibration does not depend on the number of ranks. */
  lemma GatherIsGlobal(obs: seq<Table>, layers: nat, heads: nat, tp: nat, k: nat, rank: nat)
    requires Observations(obs, layers, heads) && tp >= 1 && DivEven(heads, tp) == Some(k) && (tp <= heads || heads == 1)
    requires rank < tp
    ensures var rows := RankTables(obs, layers, heads, tp, k);
            Merge(rows, rows[rank], tp, layers, k, heads) == Some(LocalAmax(obs, layers, heads, 0, heads))
  {
    hide MaxAt, Merge;
    if tp <= heads {
      assert tp * (heads / tp) == heads;
      SplitGathersToGlobal(obs, layers, heads, k, tp, rank);
    } else {
      ReplicatedGathersToGlobal(obs, layers, heads, tp);
    }
  }

  /** The serve-time rule for a layer's row: the rank's own slice, or the row as it is when it is no
      longer than what the rank needs. */
  function ShardRow(row: seq<real>, rank: nat, k: nat): Option<seq<real>> {
    if |row| > k then (if (rank + 1) * k <= |row| then Some(row[rank * k..(rank + 1) * k]) else None)
    else if |row| == k then Some(row)
    else if |row| == 1 then Some(seq(k, _ => row[0]))
    else None
  }

  /** A row is served when it holds the rank's heads, whole, or one value for all of them. */
  lemma ShardRowIs(row: seq<real>, rank: nat, k: nat)
    ensures ShardRow(row, rank, k).Some? <==> (|row| > k && rank * k + k <= |row|) || |row| == k || |row| == 1
    ensures ShardRow(row, rank, k).Some? ==> |ShardRow(row, rank, k).value| == k && rank * k >= 0
    ensures ShardRow(row, rank, k).Some? ==> forall j :: 0 <= j < k ==>
      ShardRow(row, rank, k).value[j] == if |row| > k then row[rank * k + j] else if |row| == k then row[j] else row[0]
  {
    assert (rank + 1) * k == rank * k + k;
  }

  /** Slicing the gathered table for any other even split gives each rank its own maxima. */
  lemma SliceIsOwnMaxima(obs: seq<Table>, layers: nat, heads: nat, k: nat, tp: nat, rank: nat, l: nat)
    requires Observations(obs, layers, heads) && tp >= 1 && tp * k == heads && rank < tp && l < layers && k > 0
    ensures rank * k + k <= heads
    ensures ShardRow(LocalAmax(obs, layers, heads, 0, heads)[l], rank, k)
         == Some(LocalAmax(obs, layers, heads, rank * k, k)[l])
  {
    ProductOrder(rank, tp, k);
    assert (rank + 1) * k == rank * k + k;
    if heads == k {
      NextProduct(tp, k);
    }
    hide MaxAt;
    var row, first := LocalAmax(obs, layers, heads, 0, heads)[l], rank * k;
    var own := LocalAmax(obs, layers, heads, first, k)[l];
    assert row[first..first + k] == own;
  }
}

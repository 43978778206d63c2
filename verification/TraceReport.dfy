/** Phase lookup over sorted marker ranges, and the counters a kernel trace is summed into. */
module TraceReport {
  import opened Wrappers

  /** A marker range; it holds the times from its start up to, not including, its end. */
  datatype Range = Range(start: int, end: int, name: string)

  predicate Holds(r: Range, ts: int) {
    r.start <= ts < r.end
  }

  predicate Before(r: Range, s: Range) {
    r.start < s.start || (r.start == s.start && r.end <= s.end)
  }

  ghost predicate Sorted(rs: seq<Range>) {
    forall i, j :: 0 <= i < j < |rs| ==> Before(rs[i], rs[j])
  }

  const GAP: string := "(between phases: gap / async)"

  const REACH: nat := 8

  // ----- phase lookup ---------------------------------------------------------------------------

  /** How many ranges started at or before ts. */
  function Started(rs: seq<Range>, ts: int): (n: nat)
    requires Sorted(rs)
    ensures n <= |rs| && (forall i :: 0 <= i < n ==> rs[i].start <= ts) && forall i :: n <= i < |rs| ==> ts < rs[i].start
  {
    if rs == [] || rs[|rs| - 1].start <= ts then |rs| else Started(rs[..|rs| - 1], ts)
  }

  /** The last of the newest reach ranges before n that holds ts. */
  function LastHolding(rs: seq<Range>, ts: int, n: nat, reach: nat): (r: Option<nat>)
    requires n <= |rs|
    ensures r.Some? ==>
      && r.value < n <= r.value + reach && Holds(rs[r.value], ts)
      && forall j :: r.value < j < n ==> !Holds(rs[j], ts)
    ensures r.None? ==> forall j :: 0 <= j < n <= j + reach ==> !Holds(rs[j], ts)
  {
    if n == 0 || reach == 0 then None
    else if Holds(rs[n - 1], ts) then Some(n - 1)
    else LastHolding(rs, ts, n - 1, reach - 1)
  }

  function Lookup(rs: seq<Range>, ts: int): Option<nat>
    requires Sorted(rs)
  {
    LastHolding(rs, ts, Started(rs, ts), REACH)
  }

  function PhaseName(rs: seq<Range>, ts: int): string
    requires Sorted(rs)
  {
    match Lookup(rs, ts)
    case None => GAP
    case Some(j) => rs[j].name
  }

  /** The walk back from the last range that started. */
  method PhaseOf(rs: seq<Range>, ts: int) returns (name: string)
    requires Sorted(rs)
    ensures name == PhaseName(rs, ts)
  {
    var i := Started(rs, ts) - 1;
    var stop := if i - REACH < -1 then -1 else i - REACH;
    var j := i;
    while j > stop
      invariant stop <= j <= i
      invariant LastHolding(rs, ts, i + 1, REACH) == LastHolding(rs, ts, j + 1, REACH - (i - j))
    {
      if Holds(rs[j], ts) {
        return rs[j].name;
      }
      j := j - 1;
    }
    return GAP;
  }

  /** A phase is found exactly when some range holds the time and fewer than eight ranges started after
      it; a gap may therefore be reported inside a range that long outlives its successors. */
  lemma FoundIff(rs: seq<Range>, ts: int)
    requires Sorted(rs)
    ensures Lookup(rs, ts).Some? <==> exists j :: 0 <= j < |rs| && Holds(rs[j], ts) && Started(rs, ts) <= j + 8
  {
    var n := Started(rs, ts);
    match Lookup(rs, ts)
    case Some(j) => assert Holds(rs[j], ts);
    case None =>
      forall j | 0 <= j < |rs| && n <= j + REACH
        ensures !Holds(rs[j], ts)
      {
        if j < n {
          assert j < n <= j + REACH;
        }
      }
  }

  /** What is reported: the name of a range that holds the time when no later one does, or the gap. */
  lemma NameIs(rs: seq<Range>, ts: int)
    requires Sorted(rs)
    ensures match Lookup(rs, ts)
      case None => PhaseName(rs, ts) == "(between phases: gap / async)"
      case Some(j) =>
        && j < |rs| && rs[j].start <= ts < rs[j].end && PhaseName(rs, ts) == rs[j].name
        && forall k :: j < k < |rs| ==> !(rs[k].start <= ts < rs[k].end)
  {
  }

  ghost predicate Disjoint(rs: seq<Range>) {
    forall i, j, t :: 0 <= i < j < |rs| && Holds(rs[i], t) ==> !Holds(rs[j], t)
  }

  /** Ranges that never overlap, as the phases of a step do not, are found whenever they hold the time:
      the bound on the walk then costs nothing. */
  lemma DisjointFindsIt(rs: seq<Range>, ts: int, j: nat)
    requires Sorted(rs) && Disjoint(rs) && j < |rs| && forall i :: 0 <= i < |rs| ==> rs[i].start < rs[i].end
    ensures Lookup(rs, ts) == Some(j) <==> Holds(rs[j], ts)
  {
    var n := Started(rs, ts);
    if Holds(rs[j], ts) {
      assert j < n;
      if j < n - 1 {
        assert Before(rs[j], rs[n - 1]);
        assert Holds(rs[n - 1], rs[n - 1].start) && Holds(rs[j], rs[n - 1].start);
      }
    }
  }

  /** r's times are all s's. */
  predicate Inside(r: Range, s: Range) {
    s.start <= r.start && r.end <= s.end
  }

  ghost predicate Nested(rs: seq<Range>) {
    forall i, j :: 0 <= i < j < |rs| ==>
      Inside(rs[i], rs[j]) || Inside(rs[j], rs[i]) || rs[i].end <= rs[j].start || rs[j].end <= rs[i].start
  }

  ghost predicate AllNonEmpty(rs: seq<Range>) {
    forall i :: 0 <= i < |rs| ==> rs[i].start < rs[i].end
  }

  /** Whenever a range is found, it is inside every range that holds the time. */
  ghost predicate FindsInnermost(rs: seq<Range>)
    requires Sorted(rs)
  {
    forall ts, k :: 0 <= k < |rs| && Holds(rs[k], ts) && Lookup(rs, ts).Some? ==> Inside(rs[Lookup(rs, ts).value], rs[k])
  }

  /** Ranges that start together also end together. */
  ghost predicate StartsTellApart(rs: seq<Range>) {
    forall i, j :: 0 <= i < j < |rs| && rs[i].start == rs[j].start ==> rs[i].end == rs[j].end
  }

  /** With properly nested ranges what is found is always innermost exactly when no two different ones
      start together. */
  lemma InnermostIff(rs: seq<Range>)
    requires Sorted(rs) && Nested(rs) && AllNonEmpty(rs)
    ensures FindsInnermost(rs) <==> StartsTellApart(rs)
  {
    if StartsTellApart(rs) {
      forall ts, k | 0 <= k < |rs| && Holds(rs[k], ts) && Lookup(rs, ts).Some?
        ensures Inside(rs[Lookup(rs, ts).value], rs[k])
      {
        var j := Lookup(rs, ts).value;
        assert k < Started(rs, ts);
        if k < j {
          assert Before(rs[k], rs[j]);
        }
      }
    } else {
      var i, j :| 0 <= i < j < |rs| && rs[i].start == rs[j].start && rs[i].end != rs[j].end;
      LastOfSharedStart(rs, i, j);
    }
  }

  lemma LastOfSharedStart(rs: seq<Range>, i: nat, j: nat)
    requires Sorted(rs) && AllNonEmpty(rs) && i < j < |rs| && rs[i].start == rs[j].start && rs[i].end != rs[j].end
    ensures !FindsInnermost(rs)
  {
    var ts := rs[i].start;
    var m := Started(rs, ts) - 1;
    assert Before(rs[i], rs[j]);
    assert m == j || Before(rs[j], rs[m]);
    assert Holds(rs[m], ts) && Holds(rs[i], ts);
    assert Lookup(rs, ts) == Some(m);
  }

  /** Ranges that start together are the exception: the longer sorts last and is met first. */
  lemma SharedStartFindsOuter()
    ensures var rs := [Range(0, 1, "canvas_inner"), Range(0, 9, "canvas_outer")];
            Sorted(rs) && Nested(rs) && Holds(rs[0], 0) && PhaseName(rs, 0) == rs[1].name
  {
  }

  // ----- counters -------------------------------------------------------------------------------

  function Sum<T>(items: seq<T>, weight: T -> int): int {
    if items == [] then 0 else Sum(items[..|items| - 1], weight) + weight(items[|items| - 1])
  }

  function At<K>(m: map<K, int>, k: K): int {
    if k in m then m[k] else 0
  }

  function Add<K>(m: map<K, int>, k: K, v: int): map<K, int> {
    m[k := At(m, k) + v]
  }

  /** A counter after all items: under each key, the weight of the items with that key. */
  function Tally<T, K>(items: seq<T>, key: T -> K, weight: T -> int): map<K, int> {
    if items == [] then map[] else
    var last := items[|items| - 1];
    Add(Tally(items[..|items| - 1], key, weight), key(last), weight(last))
  }

  function With<T, K(==)>(items: seq<T>, key: T -> K, k: K): seq<T> {
    if items == [] then [] else
    var last := items[|items| - 1];
    With(items[..|items| - 1], key, k) + (if key(last) == k then [last] else [])
  }

  /** Each entry is the sum over its own items, and only keys that occur have one. */
  lemma {:induction false} TallyEntry<T, K>(items: seq<T>, key: T -> K, weight: T -> int, k: K)
    ensures At(Tally(items, key, weight), k) == Sum(With(items, key, k), weight)
    ensures k in Tally(items, key, weight) <==> With(items, key, k) != []
  {
    if items != [] {
      var before, last := items[..|items| - 1], items[|items| - 1];
      TallyEntry(before, key, weight, k);
      var w := With(before, key, k);
      if key(last) == k {
        assert (w + [last])[..|w + [last]| - 1] == w;
      } else {
        assert w + [] == w;
      }
    }
  }

  ghost function SumValues<K>(m: map<K, int>): int
    decreases |m|
  {
    if m == map[] then 0 else
    var k :| k in m;
    m[k] + SumValues(m - {k})
  }

  /** The sum does not depend on the order the keys are taken in. */
  lemma {:induction false} SumWithout<K>(m: map<K, int>, k: K)
    requires k in m
    ensures SumValues(m) == m[k] + SumValues(m - {k})
    decreases |m|
  {
    var c :| c in m && SumValues(m) == m[c] + SumValues(m - {c});
    if c != k {
      SumWithout(m - {c}, k);
      SumWithout(m - {k}, c);
      assert m - {c} - {k} == m - {k} - {c};
    }
  }

  lemma SumAdded<K>(m: map<K, int>, k: K, v: int)
    ensures SumValues(Add(m, k, v)) == SumValues(m) + v
  {
    var n := Add(m, k, v);
    SumWithout(n, k);
    if k in m {
      SumWithout(m, k);
      assert n - {k} == m - {k};
    } else {
      assert n - {k} == m;
    }
  }

  /** Nothing is lost or counted twice: a counter's entries sum to the weight of all items. */
  lemma {:induction false} TallyConserves<T, K>(items: seq<T>, key: T -> K, weight: T -> int)
    ensures SumValues(Tally(items, key, weight)) == Sum(items, weight)
  {
    if items != [] {
      var before, last := items[..|items| - 1], items[|items| - 1];
      TallyConserves(before, key, weight);
      SumAdded(Tally(before, key, weight), key(last), weight(last));
    }
  }

  /** Regrouping a counter by a coarser key gives the coarser counter's entries. */
  lemma {:induction false} TallyRegroups<T, K, F>(items: seq<T>, key: T -> K, coarse: T -> F, of: K -> F, weight: T -> int, f: F)
    requires forall t :: coarse(t) == of(key(t))
    ensures SumValues(Part(Tally(items, key, weight), of, f)) == At(Tally(items, coarse, weight), f)
  {
    if items == [] {
      assert Part(Tally(items, key, weight), of, f) == map[];
    } else {
      var before, last := items[..|items| - 1], items[|items| - 1];
      TallyRegroups(before, key, coarse, of, weight, f);
      var m := Tally(before, key, weight);
      PartAdded(m, of, f, key(last), weight(last));
      SumAdded(Part(m, of, f), key(last), weight(last));
    }
  }

  function Part<K, F(==)>(m: map<K, int>, of: K -> F, f: F): map<K, int> {
    map k | k in m && of(k) == f :: m[k]
  }

  lemma PartAdded<K, F>(m: map<K, int>, of: K -> F, f: F, k: K, v: int)
    ensures Part(Add(m, k, v), of, f) == if of(k) == f then Add(Part(m, of, f), k, v) else Part(m, of, f)
  {
  }

  // ----- the report -----------------------------------------------------------------------------

  datatype Row = Row(start: int, end: int, agent: string, name: string)

  /** A dispatch as it is counted. */
  datatype Dispatch = Dispatch(phase: string, fam: string, kernel: string, dur: int)

  datatype Context = Context(ranges: seq<Range>, lo: int, hi: int, family: string -> string, short: string -> string) {
    ghost predicate Valid() { Sorted(ranges) }

    /** A dispatch counts when it takes time and starts inside the window of steps. */
    predicate Counted(r: Row) {
      r.start < r.end && lo <= r.start <= hi
    }

    function Label(r: Row): Dispatch
      requires Valid()
    {
      Dispatch(PhaseName(ranges, r.start), family(r.name), short(r.name), r.end - r.start)
    }
  }

  function PhaseKey(d: Dispatch): string { d.phase }
  function FamilyKey(d: Dispatch): string { d.fam }
  function KernelKey(d: Dispatch): (string, string) { (d.fam, d.kernel) }
  function Duration(d: Dispatch): int { d.dur }
  function One(d: Dispatch): int { 1 }

  function AgentKey(r: Row): string { r.agent }
  function Span(r: Row): int { r.end - r.start }
  function FamilyOfKernel(k: (string, string)): string { k.0 }

  function InWindow(c: Context, rows: seq<Row>): seq<Row> {
    if rows == [] then [] else
    var last := rows[|rows| - 1];
    InWindow(c, rows[..|rows| - 1]) + (if c.Counted(last) then [last] else [])
  }

  /** Whether a row passes the agent filter; an empty agent name filters nothing. */
  predicate Wanted(want: Option<string>, r: Row) {
    want.Some? && want.value != "" ==> r.agent == want.value
  }

  function Dispatches(c: Context, want: Option<string>, rows: seq<Row>): seq<Dispatch>
    requires c.Valid()
  {
    if rows == [] then [] else
    var last := rows[|rows| - 1];
    Dispatches(c, want, rows[..|rows| - 1]) + (if c.Counted(last) && Wanted(want, last) then [c.Label(last)] else [])
  }

  lemma TallyNext<T, K>(items: seq<T>, x: T, key: T -> K, weight: T -> int)
    ensures Tally(items + [x], key, weight) == Add(Tally(items, key, weight), key(x), weight(x))
    ensures Sum(items + [x], weight) == Sum(items, weight) + weight(x)
  {
    assert (items + [x])[..|items|] == items;
  }

  lemma InWindowNext(c: Context, rows: seq<Row>, i: nat)
    requires i < |rows|
    ensures InWindow(c, rows[..i + 1]) ==
      if c.Counted(rows[i]) then InWindow(c, rows[..i]) + [rows[i]] else InWindow(c, rows[..i])
  {
    assert rows[..i + 1][..i] == rows[..i];
  }

  lemma DispatchesNext(c: Context, want: Option<string>, rows: seq<Row>, i: nat)
    requires i < |rows| && c.Valid()
    ensures Dispatches(c, want, rows[..i + 1]) ==
      if c.Counted(rows[i]) && Wanted(want, rows[i]) then Dispatches(c, want, rows[..i]) + [c.Label(rows[i])]
      else Dispatches(c, want, rows[..i])
  {
    assert rows[..i + 1][..i] == rows[..i];
  }

  /** The time each agent spends in the window. */
  function AgentTimes(c: Context, rows: seq<Row>): map<string, int> {
    Tally(InWindow(c, rows), AgentKey, Span)
  }

  method AgentTotals(c: Context, rows: seq<Row>) returns (agents: map<string, int>, order: seq<string>)
    ensures agents == AgentTimes(c, rows)
    ensures order == Firsts(InWindow(c, rows)) && forall a :: a in agents <==> a in order
  {
    agents, order := map[], [];
    for i := 0 to |rows|
      invariant agents == Tally(InWindow(c, rows[..i]), AgentKey, Span)
      invariant order == Firsts(InWindow(c, rows[..i]))
      invariant forall a :: a in agents <==> a in order
    {
      var r := rows[i];
      InWindowNext(c, rows, i);
      if c.Counted(r) {
        ghost var before := InWindow(c, rows[..i]);
        TallyNext(before, r, AgentKey, Span);
        if r.agent !in agents {
          order := order + [r.agent];
        }
        agents := Add(agents, r.agent, Span(r));
      }
    }
    assert rows[..|rows|] == rows;
  }

  /** The agents in the order they first occur, which is the order a counter keeps them in. */
  function Firsts(rows: seq<Row>): seq<string> {
    if rows == [] then [] else
    var before, last := Firsts(rows[..|rows| - 1]), rows[|rows| - 1].agent;
    if last in before then before else before + [last]
  }

  lemma {:induction false} FirstsHoldAll(rows: seq<Row>, a: string)
    ensures a in Firsts(rows) <==> exists m :: 0 <= m < |rows| && rows[m].agent == a
  {
    if rows != [] {
      FirstsHoldAll(rows[..|rows| - 1], a);
    }
  }

  /** An agent before another has a row before all of the other's; so none is listed twice. */
  lemma {:induction false} FirstsInOrder(rows: seq<Row>, i: nat, j: nat)
    requires i < j < |Firsts(rows)|
    ensures exists m :: 0 <= m < |rows| && rows[m].agent == Firsts(rows)[i]
              && forall n :: 0 <= n <= m ==> rows[n].agent != Firsts(rows)[j]
  {
    var before := rows[..|rows| - 1];
    var seen, all := Firsts(before), Firsts(rows);
    assert forall n :: 0 <= n < |before| ==> before[n] == rows[n];
    if j < |seen| {
      FirstsInOrder(before, i, j);
      var m :| 0 <= m < |before| && before[m].agent == seen[i] && forall n :: 0 <= n <= m ==> before[n].agent != seen[j];
      assert rows[m].agent == all[i];
    } else {
      FirstsHoldAll(before, seen[i]);
      FirstsHoldAll(before, all[j]);
      var m :| 0 <= m < |before| && before[m].agent == seen[i];
      assert rows[m].agent == all[i];
    }
  }

  /** The busiest agent, the first of them when several are. */
  method Busiest(agents: map<string, int>, order: seq<string>) returns (k: nat)
    requires order != [] && forall a :: a in order ==> a in agents
    ensures k < |order| && forall j :: 0 <= j < |order| ==>
      agents[order[j]] <= agents[order[k]] && (j < k ==> agents[order[j]] < agents[order[k]])
  {
    k := 0;
    for i := 1 to |order|
      invariant k < i
      invariant forall j :: 0 <= j < i ==>
        agents[order[j]] <= agents[order[k]] && (j < k ==> agents[order[j]] < agents[order[k]])
    {
      if agents[order[i]] > agents[order[k]] {
        k := i;
      }
    }
  }

  function NoFilterForAll(agent: string): Option<string> {
    if agent == "all" then None else Some(agent)
  }

  /** The filter the report uses: the agent asked for, or the busiest of several; "all" asks for none. */
  ghost predicate Chosen(asked: Option<string>, agents: map<string, int>, want: Option<string>) {
    if asked.Some? then want == NoFilterForAll(asked.value)
    else if |agents| <= 1 then want == None
    else exists a :: IsBusiest(agents, a) && want == NoFilterForAll(a)
  }

  method ChooseAgent(asked: Option<string>, agents: map<string, int>, order: seq<string>) returns (want: Option<string>)
    requires forall a :: a in agents <==> a in order
    ensures Chosen(asked, agents, want)
  {
    want := asked;
    if want.None? && |agents| > 1 {
      assert |agents.Keys| == |agents|;
      assert exists a :: a in agents.Keys;
      var k := Busiest(agents, order);
      assert IsBusiest(agents, order[k]);
      want := Some(order[k]);
    }
    if want == Some("all") {
      want := None;
    }
  }

  ghost predicate IsBusiest(agents: map<string, int>, a: string) {
    a in agents && forall b :: b in agents ==> agents[b] <= agents[a]
  }

  datatype Totals = Totals(
    total: int, dispatches: int,
    byPhase: map<string, int>, nPhase: map<string, int>,
    byFamily: map<string, int>, nFamily: map<string, int>,
    byKernel: map<(string, string), int>, nKernel: map<(string, string), int>)

  function TotalsOf(ds: seq<Dispatch>): Totals {
    Totals(Sum(ds, Duration), |ds|,
           Tally(ds, PhaseKey, Duration), Tally(ds, PhaseKey, One),
           Tally(ds, FamilyKey, Duration), Tally(ds, FamilyKey, One),
           Tally(ds, KernelKey, Duration), Tally(ds, KernelKey, One))
  }

  /** The time the report sums. */
  function Reported(c: Context, want: Option<string>, rows: seq<Row>): int
    requires c.Valid()
  {
    Sum(Dispatches(c, want, rows), Duration)
  }

  lemma NoTotals(c: Context, want: Option<string>, rows: seq<Row>)
    requires c.Valid()
    ensures TotalsOf(Dispatches(c, want, rows[..0])) == Totals(0, 0, map[], map[], map[], map[], map[], map[])
  {
  }

  lemma TotalsNext(ds: seq<Dispatch>, d: Dispatch)
    ensures var t := TotalsOf(ds);
            TotalsOf(ds + [d]) == Totals(t.total + d.dur, t.dispatches + 1,
                                         Add(t.byPhase, d.phase, d.dur), Add(t.nPhase, d.phase, 1),
                                         Add(t.byFamily, d.fam, d.dur), Add(t.nFamily, d.fam, 1),
                                         Add(t.byKernel, (d.fam, d.kernel), d.dur), Add(t.nKernel, (d.fam, d.kernel), 1))
  {
    hide Tally, Sum;
    TallyNext(ds, d, PhaseKey, Duration);
    TallyNext(ds, d, PhaseKey, One);
    TallyNext(ds, d, FamilyKey, Duration);
    TallyNext(ds, d, FamilyKey, One);
    TallyNext(ds, d, KernelKey, Duration);
    TallyNext(ds, d, KernelKey, One);
  }

  method Accumulate(c: Context, want: Option<string>, rows: seq<Row>) returns (t: Totals)
    requires c.Valid()
    ensures t == TotalsOf(Dispatches(c, want, rows))
  {
    hide TotalsOf, Dispatches, Lookup, Add;
    var total, ndisp := 0, 0;
    var byPhase: map<string, int>, nPhase: map<string, int> := map[], map[];
    var byFamily: map<string, int>, nFamily: map<string, int> := map[], map[];
    var byKernel: map<(string, string), int>, nKernel: map<(string, string), int> := map[], map[];
    NoTotals(c, want, rows);
    for i := 0 to |rows|
      invariant Totals(total, ndisp, byPhase, nPhase, byFamily, nFamily, byKernel, nKernel)
             == TotalsOf(Dispatches(c, want, rows[..i]))
    {
      var r := rows[i];
      DispatchesNext(c, want, rows, i);
      if r.end <= r.start || !(c.lo <= r.start <= c.hi) {
        continue;
      }
      if want.Some? && want.value != "" && r.agent != want.value {
        continue;
      }
      var dur := r.end - r.start;
      var ph := PhaseOf(c.ranges, r.start);
      var fam, k := c.family(r.name), c.short(r.name);
      TotalsNext(Dispatches(c, want, rows[..i]), c.Label(r));
      total := total + dur;
      ndisp := ndisp + 1;
      byPhase, nPhase := Add(byPhase, ph, dur), Add(nPhase, ph, 1);
      byFamily, nFamily := Add(byFamily, fam, dur), Add(nFamily, fam, 1);
      byKernel, nKernel := Add(byKernel, (fam, k), dur), Add(nKernel, (fam, k), 1);
    }
    assert rows[..|rows|] == rows;
    t := Totals(total, ndisp, byPhase, nPhase, byFamily, nFamily, byKernel, nKernel);
  }

  // ----- what the counters say of the rows ------------------------------------------------------

  /** The weight of the rows that are of interest. */
  function SumWhere(rows: seq<Row>, of: Row -> bool, weight: Row -> int): int {
    if rows == [] then 0 else (if of(rows[0]) then weight(rows[0]) else 0) + SumWhere(rows[1..], of, weight)
  }

  lemma {:induction false} SumWhereNext(rows: seq<Row>, r: Row, of: Row -> bool, weight: Row -> int)
    ensures SumWhere(rows + [r], of, weight) == SumWhere(rows, of, weight) + if of(r) then weight(r) else 0
  {
    if rows == [] {
      assert [r][1..] == [] && rows + [r] == [r];
    } else {
      assert (rows + [r])[1..] == rows[1..] + [r];
      SumWhereNext(rows[1..], r, of, weight);
    }
  }

  lemma EntryOfLast<K>(c: Context, want: Option<string>, rows: seq<Row>, r: Row, key: Dispatch -> K, k: K,
                       weight: Dispatch -> int, of: Row -> bool, w: Row -> int)
    requires c.Valid() && w(r) == weight(c.Label(r))
    requires of(r) <==> c.Counted(r) && Wanted(want, r) && key(c.Label(r)) == k
    ensures At(Tally(Dispatches(c, want, rows + [r]), key, weight), k) - At(Tally(Dispatches(c, want, rows), key, weight), k)
         == SumWhere(rows + [r], of, w) - SumWhere(rows, of, w)
  {
    hide Wanted, Lookup, PhaseName, Tally, SumWhere, Dispatches;
    assert (rows + [r])[..|rows| + 1] == rows + [r] && (rows + [r])[..|rows|] == rows;
    DispatchesNext(c, want, rows + [r], |rows|);
    SumWhereNext(rows, r, of, w);
    TallyNext(Dispatches(c, want, rows), c.Label(r), key, weight);
  }

  lemma {:induction false} EntryOfRows<K>(c: Context, want: Option<string>, rows: seq<Row>, key: Dispatch -> K, k: K,
                                          weight: Dispatch -> int, of: Row -> bool, w: Row -> int)
    requires c.Valid() && forall r :: w(r) == weight(c.Label(r))
    requires forall r :: of(r) <==> c.Counted(r) && Wanted(want, r) && key(c.Label(r)) == k
    ensures At(Tally(Dispatches(c, want, rows), key, weight), k) == SumWhere(rows, of, w)
  {
    hide Wanted, Lookup, PhaseName;
    if rows != [] {
      var before, r := rows[..|rows| - 1], rows[|rows| - 1];
      EntryOfRows(c, want, before, key, k, weight, of, w);
      EntryOfLast(c, want, before, r, key, k, weight, of, w);
      assert rows == before + [r];
    }
  }

  lemma SumNext<T>(items: seq<T>, x: T, weight: T -> int)
    ensures Sum(items + [x], weight) == Sum(items, weight) + weight(x)
  {
    assert (items + [x])[..|items|] == items;
  }

  /** What the last row adds, whether it counts or not. */
  lemma TotalOfLast(c: Context, want: Option<string>, rows: seq<Row>, r: Row, weight: Dispatch -> int, of: Row -> bool, w: Row -> int)
    requires c.Valid() && w(r) == weight(c.Label(r)) && (of(r) <==> c.Counted(r) && Wanted(want, r))
    ensures Sum(Dispatches(c, want, rows + [r]), weight) - Sum(Dispatches(c, want, rows), weight)
         == SumWhere(rows + [r], of, w) - SumWhere(rows, of, w)
  {
    hide Wanted, Lookup, PhaseName, Sum, SumWhere, Dispatches;
    assert (rows + [r])[..|rows| + 1] == rows + [r] && (rows + [r])[..|rows|] == rows;
    DispatchesNext(c, want, rows + [r], |rows|);
    SumWhereNext(rows, r, of, w);
    SumNext(Dispatches(c, want, rows), c.Label(r), weight);
  }

  lemma {:induction false} TotalOfRows(c: Context, want: Option<string>, rows: seq<Row>,
                                       weight: Dispatch -> int, of: Row -> bool, w: Row -> int)
    requires c.Valid() && forall r :: w(r) == weight(c.Label(r))
    requires forall r :: of(r) <==> c.Counted(r) && Wanted(want, r)
    ensures Sum(Dispatches(c, want, rows), weight) == SumWhere(rows, of, w)
  {
    hide Wanted, Lookup, PhaseName;
    if rows != [] {
      var before, r := rows[..|rows| - 1], rows[|rows| - 1];
      TotalOfRows(c, want, before, weight, of, w);
      TotalOfLast(c, want, before, r, weight, of, w);
      assert rows == before + [r];
    }
  }

  /** The totals in terms of the rows: a dispatch counts when it takes time, starts inside the window and ran
      on the agent asked for; its time goes to the phase at its start, to its family and to its kernel. */
  lemma TotalsOfRows(c: Context, want: Option<string>, rows: seq<Row>, phase: string, fam: string, kernel: string)
    requires c.Valid()
    ensures var t := TotalsOf(Dispatches(c, want, rows));
      var counts := (r: Row) =>
        r.start < r.end && c.lo <= r.start <= c.hi && (want == None || want == Some("") || want == Some(r.agent));
      var in_phase := (r: Row) => counts(r) && PhaseName(c.ranges, r.start) == phase;
      var in_family := (r: Row) => counts(r) && c.family(r.name) == fam;
      var in_kernel := (r: Row) => counts(r) && c.family(r.name) == fam && c.short(r.name) == kernel;
      var time, one := (r: Row) => r.end - r.start, (r: Row) => 1;
      && t.total == SumWhere(rows, counts, time) && t.dispatches == SumWhere(rows, counts, one)
      && At(t.byPhase, phase) == SumWhere(rows, in_phase, time) && At(t.nPhase, phase) == SumWhere(rows, in_phase, one)
      && At(t.byFamily, fam) == SumWhere(rows, in_family, time) && At(t.nFamily, fam) == SumWhere(rows, in_family, one)
      && At(t.byKernel, (fam, kernel)) == SumWhere(rows, in_kernel, time)
      && At(t.nKernel, (fam, kernel)) == SumWhere(rows, in_kernel, one)
  {
    var counts := (r: Row) =>
      r.start < r.end && c.lo <= r.start <= c.hi && (want == None || want == Some("") || want == Some(r.agent));
    var in_phase := (r: Row) => counts(r) && PhaseName(c.ranges, r.start) == phase;
    var in_family := (r: Row) => counts(r) && c.family(r.name) == fam;
    var in_kernel := (r: Row) => counts(r) && c.family(r.name) == fam && c.short(r.name) == kernel;
    var time, one := (r: Row) => r.end - r.start, (r: Row) => 1;
    hide Lookup, Tally, Sum, Dispatches;
    var ds := Dispatches(c, want, rows);
    SumOfOnes(ds);
    TotalOfRows(c, want, rows, Duration, counts, time);
    TotalOfRows(c, want, rows, One, counts, one);
    EntryOfRows(c, want, rows, PhaseKey, phase, Duration, in_phase, time);
    EntryOfRows(c, want, rows, PhaseKey, phase, One, in_phase, one);
    EntryOfRows(c, want, rows, FamilyKey, fam, Duration, in_family, time);
    EntryOfRows(c, want, rows, FamilyKey, fam, One, in_family, one);
    EntryOfRows(c, want, rows, KernelKey, (fam, kernel), Duration, in_kernel, time);
    EntryOfRows(c, want, rows, KernelKey, (fam, kernel), One, in_kernel, one);
  }

  lemma {:induction false} SumOfOnes(ds: seq<Dispatch>)
    ensures Sum(ds, One) == |ds|
  {
    if ds != [] {
      SumOfOnes(ds[..|ds| - 1]);
    }
  }

  /** All six counters account for the same time and the same dispatches. */
  lemma CountersAgree(ds: seq<Dispatch>)
    ensures var t := TotalsOf(ds);
            && t.total == SumValues(t.byPhase) == SumValues(t.byFamily) == SumValues(t.byKernel)
            && t.dispatches == SumValues(t.nPhase) == SumValues(t.nFamily) == SumValues(t.nKernel)
  {
    TallyConserves(ds, PhaseKey, Duration);
    TallyConserves(ds, FamilyKey, Duration);
    TallyConserves(ds, KernelKey, Duration);
    TallyConserves(ds, PhaseKey, One);
    TallyConserves(ds, FamilyKey, One);
    TallyConserves(ds, KernelKey, One);
    SumOfOnes(ds);
  }

  /** The kernel table breaks the family table down exactly. */
  lemma KernelsRefineFamilies(ds: seq<Dispatch>, fam: string)
    ensures var t := TotalsOf(ds);
            && SumValues(Part(t.byKernel, FamilyOfKernel, fam)) == At(t.byFamily, fam)
            && SumValues(Part(t.nKernel, FamilyOfKernel, fam)) == At(t.nFamily, fam)
  {
    TallyRegroups(ds, KernelKey, FamilyKey, FamilyOfKernel, Duration, fam);
    TallyRegroups(ds, KernelKey, FamilyKey, FamilyOfKernel, One, fam);
  }

  lemma OneMoreRow(ws: seq<Row>, r: Row, ds: seq<Dispatch>, d: Dispatch)
    requires d.dur == Span(r)
    ensures Sum(ds + [d], Duration) == Sum(ds, Duration) + Span(r)
    ensures Tally(ws + [r], AgentKey, Span) == Add(Tally(ws, AgentKey, Span), r.agent, Span(r))
    ensures SumValues(Tally(ws + [r], AgentKey, Span)) == SumValues(Tally(ws, AgentKey, Span)) + Span(r)
  {
    TallyNext(ds, d, PhaseKey, Duration);
    TallyNext(ws, r, AgentKey, Span);
    SumAdded(Tally(ws, AgentKey, Span), r.agent, Span(r));
  }

  /** What the report sums is what the agent pass saw: one agent's total when it filters on it, and the
      agents' sum when it does not. */
  lemma {:induction false} TotalIsAgents(c: Context, want: Option<string>, rows: seq<Row>)
    requires c.Valid()
    ensures Reported(c, want, rows)
         == if want.Some? && want.value != "" then At(AgentTimes(c, rows), want.value) else SumValues(AgentTimes(c, rows))
  {
    if rows != [] {
      var i := |rows| - 1;
      var before, r := rows[..i], rows[i];
      TotalIsAgents(c, want, before);
      assert rows[..i + 1] == rows;
      InWindowNext(c, rows, i);
      DispatchesNext(c, want, rows, i);
      OneMoreRow(InWindow(c, before), r, Dispatches(c, want, before), c.Label(r));
    }
  }

  /** An agent's figure is the time of its own rows in the window. */
  lemma AgentTimeOfRows(c: Context, rows: seq<Row>, a: string)
    requires c.Valid() && a != ""
    ensures var own := (r: Row) => r.start < r.end && c.lo <= r.start <= c.hi && r.agent == a;
      At(AgentTimes(c, rows), a) == SumWhere(rows, own, (r: Row) => r.end - r.start)
  {
    TotalIsAgents(c, Some(a), rows);
    var own := (r: Row) => r.start < r.end && c.lo <= r.start <= c.hi && r.agent == a;
    TotalOfRows(c, Some(a), rows, Duration, own, (r: Row) => r.end - r.start);
  }

  /** The report's default covers one card: the busiest agent's own time, no agent having more. It falls
      back to the sum over all of them exactly when that agent is called "all" or has no name. */
  lemma DefaultIsBusiest(c: Context, rows: seq<Row>, a: string)
    requires c.Valid()
    requires IsBusiest(AgentTimes(c, rows), a)
    ensures a in ["all", ""] ==> Reported(c, NoFilterForAll(a), rows) == SumValues(AgentTimes(c, rows))
    ensures a !in ["all", ""] ==>
      && Reported(c, NoFilterForAll(a), rows) == AgentTimes(c, rows)[a]
      && forall b :: b in AgentTimes(c, rows) ==> AgentTimes(c, rows)[b] <= Reported(c, NoFilterForAll(a), rows)
  {
    TotalIsAgents(c, NoFilterForAll(a), rows);
  }

  /** The report as a whole: the filter is chosen from the first pass, the second pass counts under it. */
  method Report(c: Context, asked: Option<string>, rows: seq<Row>) returns (want: Option<string>, t: Totals)
    requires c.Valid()
    ensures Chosen(asked, AgentTimes(c, rows), want) && t == TotalsOf(Dispatches(c, want, rows))
    ensures asked.None? && |AgentTimes(c, rows)| <= 1 ==> t.total == SumValues(AgentTimes(c, rows))
    ensures asked.None? && |AgentTimes(c, rows)| > 1 ==>
      exists a :: IsBusiest(AgentTimes(c, rows), a)
        && t.total == if a in ["all", ""] then SumValues(AgentTimes(c, rows)) else AgentTimes(c, rows)[a]
  {
    hide AgentTimes, SumValues, Dispatches, Tally, TotalsOf;
    var agents, order := AgentTotals(c, rows);
    want := ChooseAgent(asked, agents, order);
    t := Accumulate(c, want, rows);
    DefaultTotal(c, asked, rows, want);
  }

  lemma DefaultTotal(c: Context, asked: Option<string>, rows: seq<Row>, want: Option<string>)
    requires c.Valid() && Chosen(asked, AgentTimes(c, rows), want)
    ensures var total := TotalsOf(Dispatches(c, want, rows)).total;
      && (asked.None? && |AgentTimes(c, rows)| <= 1 ==> total == SumValues(AgentTimes(c, rows)))
      && (asked.None? && |AgentTimes(c, rows)| > 1 ==>
            exists a :: IsBusiest(AgentTimes(c, rows), a)
              && total == if a in ["all", ""] then SumValues(AgentTimes(c, rows)) else AgentTimes(c, rows)[a])
  {
    hide AgentTimes, SumValues, Dispatches, Tally;
    if asked.None? && |AgentTimes(c, rows)| > 1 {
      var a :| IsBusiest(AgentTimes(c, rows), a) && want == NoFilterForAll(a);
      DefaultIsBusiest(c, rows, a);
    } else {
      TotalIsAgents(c, want, rows);
    }
  }
}

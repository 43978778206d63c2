/** The draft KV ring: a circular buffer per slot that must agree with the unbounded position-to-value
    log it stands for. The ring's k and v buffers are always written together and are one buffer here. */
module DraftRing {
  import opened RingColumns
  import opened Wrappers

  // ----- the log ----------------------------------------------------------------------------------

  /** What has been written for one slot: the value of every position after base up to hi. Positions
      below cur are confirmed; the rest are the last round's drafts. */
  datatype Log<KV> = Log(base: int, hi: int, cur: int, vals: map<int, KV>) {

    /** Positions are contiguous, and rounds of at most `steps` writes keep the cursor near the top. */
    ghost predicate Ok(steps: nat) {
      && -1 <= base <= hi && base < cur <= hi + 1 <= cur + steps
      && forall p :: p in vals <==> base < p <= hi
    }

    function Write(q: int, v: KV): Log<KV> {
      this.(hi := if q > hi then q else hi, vals := vals[q := v])
    }

    /** What a ring of R columns still shows a query at q. */
    function View(R: nat, q: int): map<int, KV> {
      map p | p in vals && base < p && hi - R < p <= q :: vals[p]
    }
  }

  /** One propose call on the log: write a value, look at what is visible, draft the next token. */
  function ProposeLog<X, KV>(
    project: (X, int) -> KV, draft: (X, int, map<int, KV>) -> X, R: nat, log: Log<KV>, x: X, q: int, n: nat)
    : (r: (seq<X>, Log<KV>))
    ensures |r.0| == n && r.1.base == log.base && r.1.cur == log.cur
    decreases n
  {
    if n == 0 then ([], log) else
    var written := log.Write(q, project(x, q));
    var next := draft(x, q, written.View(R, q));
    var rest := ProposeLog(project, draft, R, written, next, q + 1, n - 1);
    ([next] + rest.0, rest.1)
  }

  // ----- seeding ----------------------------------------------------------------------------------

  datatype Run = Run(p0: int, p1: int, col0: nat)

  /** The first position a prompt seeds. */
  function SeedLow(R: nat, origin: int, end: int): int {
    Max(origin + 1, end - R)
  }

  function SeedRuns(R: nat, origin: int, end: int): seq<Run>
    requires R > 0
  {
    var lo := SeedLow(R, origin, end);
    var n := end - lo;
    if n <= 0 then [] else
    var first := Min(n, R - Column(lo, R));
    [Run(lo, lo + first, Column(lo, R))] + if first < n then [Run(lo + first, end, 0)] else []
  }

  /** The runs list the seeded positions in order, and within a run the columns follow on without a
      wrap: the k-th position of a run belongs in its k-th column. */
  lemma SeedRunsTile(R: nat, origin: int, end: int)
    requires R > 0
    ensures var runs := SeedRuns(R, origin, end);
            && |runs| <= 2 && (runs == [] <==> end <= SeedLow(R, origin, end))
            && (runs != [] ==> runs[0].p0 == SeedLow(R, origin, end) && runs[|runs| - 1].p1 == end)
            && (|runs| == 2 ==> runs[0].p1 == runs[1].p0)
            && forall i :: 0 <= i < |runs| ==>
                 && runs[i].p0 < runs[i].p1 && runs[i].col0 + (runs[i].p1 - runs[i].p0) <= R
                 && forall p :: runs[i].p0 <= p < runs[i].p1 ==> Column(p, R) == runs[i].col0 + (p - runs[i].p0)
  {
    hide Column;
    var lo := SeedLow(R, origin, end);
    var runs := SeedRuns(R, origin, end);
    if runs != [] {
      forall p | lo <= p < runs[0].p1
        ensures Column(p, R) == runs[0].col0 + (p - lo)
      {
        ColumnInRun(lo, p, R);
      }
      if |runs| == 2 {
        ColumnAfterWrap(lo, R);
        forall p | runs[1].p0 <= p < end
          ensures Column(p, R) == p - runs[1].p0
        {
          ColumnInRun(runs[1].p0, p, R);
        }
      }
    }
  }

  /** The log a prompt leaves: every position after the origin, whether or not the ring still has it. */
  function SeededLog<KV>(origin: int, end: int, seed: int -> KV): Log<KV> {
    var base := Min(origin, end - 1);
    Log(base, end - 1, end, map p | base < p < end :: seed(p))
  }

  lemma ProposeNothing<X, KV>(
    project: (X, int) -> KV, draft: (X, int, map<int, KV>) -> X, R: nat, log: Log<KV>, x: X, q: int)
    ensures ProposeLog(project, draft, R, log, x, q, 0) == ([], log)
  {
  }

  lemma ProposeUnfold<X, KV>(
    project: (X, int) -> KV, draft: (X, int, map<int, KV>) -> X, R: nat, log: Log<KV>, x: X, q: int, n: nat)
    requires n > 0
    ensures var written := log.Write(q, project(x, q));
            var next := draft(x, q, written.View(R, q));
            var rest := ProposeLog(project, draft, R, written, next, q + 1, n - 1);
            ProposeLog(project, draft, R, log, x, q, n) == ([next] + rest.0, rest.1)
  {
  }

  /** After j of n steps a call has drafted xs and left lg, and goes on as the whole call would. */
  ghost predicate OnCourse<X, KV>(
    project: (X, int) -> KV, draft: (X, int, map<int, KV>) -> X, R: nat, log: Log<KV>, x0: X, q: int, n: nat,
    xs: seq<X>, lg: Log<KV>, x: X, j: nat)
  {
    && j <= n
    && var rest := ProposeLog(project, draft, R, lg, x, q + j, n - j);
       ProposeLog(project, draft, R, log, x0, q, n) == (xs + rest.0, rest.1)
  }

  lemma StartsOnCourse<X, KV>(
    project: (X, int) -> KV, draft: (X, int, map<int, KV>) -> X, R: nat, log: Log<KV>, x0: X, q: int, n: nat)
    ensures OnCourse(project, draft, R, log, x0, q, n, [], log, x0, 0)
  {
    hide ProposeLog;
    assert [] + ProposeLog(project, draft, R, log, x0, q, n).0 == ProposeLog(project, draft, R, log, x0, q, n).0;
  }

  lemma StaysOnCourse<X, KV>(
    project: (X, int) -> KV, draft: (X, int, map<int, KV>) -> X, R: nat, log: Log<KV>, x0: X, q: int, n: nat,
    xs: seq<X>, lg: Log<KV>, x: X, j: nat)
    requires OnCourse(project, draft, R, log, x0, q, n, xs, lg, x, j) && j < n
    ensures var written := lg.Write(q + j, project(x, q + j));
            var next := draft(x, q + j, written.View(R, q + j));
            OnCourse(project, draft, R, log, x0, q, n, xs + [next], written, next, j + 1)
  {
    hide ProposeLog;
    ProposeUnfold(project, draft, R, lg, x, q + j, n - j);
    var written := lg.Write(q + j, project(x, q + j));
    var next := draft(x, q + j, written.View(R, q + j));
    var rest := ProposeLog(project, draft, R, written, next, q + (j + 1), n - (j + 1));
    assert xs + ([next] + rest.0) == (xs + [next]) + rest.0;
  }

  lemma EndsOnCourse<X, KV>(
    project: (X, int) -> KV, draft: (X, int, map<int, KV>) -> X, R: nat, log: Log<KV>, x0: X, q: int, n: nat,
    xs: seq<X>, lg: Log<KV>, x: X)
    requires OnCourse(project, draft, R, log, x0, q, n, xs, lg, x, n)
    ensures ProposeLog(project, draft, R, log, x0, q, n) == (xs, lg)
  {
    hide ProposeLog;
    ProposeNothing(project, draft, R, lg, x, q + n);
    assert xs + [] == xs;
  }

  // ----- the ring ---------------------------------------------------------------------------------

  class Ring<KV(0)> {
    const R: nat
    const slots: nat
    const pos: array2<int>
    const kv: array2<KV>
    const cur: array<int>

    ghost predicate Shaped() {
      R > 0 && pos as object != kv && pos.Length0 == kv.Length0 == cur.Length == slots && pos.Length1 == kv.Length1 == R
    }

    constructor (slots: nat, R: nat)
      requires R > 0
      ensures Shaped() && this.R == R && this.slots == slots && fresh(pos) && fresh(kv) && fresh(cur)
      ensures forall s, c :: 0 <= s < slots && 0 <= c < R ==> pos[s, c] == -1
    {
      this.R, this.slots := R, slots;
      pos := new int[slots, R]((i, j) => -1);
      kv := new KV[slots, R];
      cur := new int[slots](i => 0);
    }

    /** Every column is empty or holds a position that belongs there. */
    ghost predicate Tidy(slot: nat)
      reads pos
      requires Shaped() && slot < slots
    {
      forall c :: 0 <= c < R ==> pos[slot, c] == -1 || (pos[slot, c] >= 0 && Column(pos[slot, c], R) == c)
    }

    predicate Kept(slot: nat, q: int, c: nat)
      reads pos
      requires Shaped() && slot < slots && c < R
    {
      pos[slot, c] >= 0 && pos[slot, c] <= q && q - pos[slot, c] < R
    }

    /** The kept columns, as the positions and values they hold: no position is kept twice. */
    function Visible(slot: nat, q: int): (m: map<int, KV>)
      reads pos, kv
      requires Shaped() && slot < slots && Tidy(slot)
      ensures forall c :: 0 <= c < R && Kept(slot, q, c) ==> pos[slot, c] in m && m[pos[slot, c]] == kv[slot, c]
      ensures forall p :: p in m ==> exists c :: 0 <= c < R && Kept(slot, q, c) && pos[slot, c] == p
    {
      map c | 0 <= c < R && Kept(slot, q, c) :: pos[slot, c] := kv[slot, c]
    }

    /** Column c holds the one position of the log's last R that belongs there, or nothing. */
    ghost predicate ColumnHolds(slot: nat, log: Log<KV>, c: nat)
      reads pos, kv
      requires Shaped() && slot < slots && c < R
    {
      var p := pos[slot, c];
      if p == -1 then forall q :: log.base < q && log.hi - R < q <= log.hi ==> Column(q, R) != c
      else log.base < p && log.hi - R < p <= log.hi && Column(p, R) == c && p in log.vals && kv[slot, c] == log.vals[p]
    }

    /** The slot stands for the log. */
    ghost predicate Holds(slot: nat, log: Log<KV>, steps: nat)
      reads pos, kv, cur
      requires Shaped() && slot < slots
    {
      log.Ok(steps) && cur[slot] == log.cur && forall c :: 0 <= c < R ==> ColumnHolds(slot, log, c)
    }

    /** What the ring shows a query is what is left of the log: positions after the base and within R of
        the highest one written, up to the query. */
    lemma VisibleIsView(slot: nat, log: Log<KV>, steps: nat, q: int)
      requires Shaped() && slot < slots && Holds(slot, log, steps) && q <= log.hi
      ensures Tidy(slot) && Visible(slot, q) == log.View(R, q)
    {
      hide Column;
      forall c | 0 <= c < R
        ensures pos[slot, c] == -1 || (pos[slot, c] >= 0 && Column(pos[slot, c], R) == c)
      {
        assert ColumnHolds(slot, log, c);
      }
      forall p | p in log.View(R, q)
        ensures p in Visible(slot, q) && Visible(slot, q)[p] == log.vals[p]
      {
        var c := Column(p, R);
        assert ColumnHolds(slot, log, c);
        ColumnsDiffer(p, pos[slot, c], R);
        assert Kept(slot, q, c);
      }
      forall p | p in Visible(slot, q)
        ensures p in log.View(R, q)
      {
        var c :| 0 <= c < R && Kept(slot, q, c) && pos[slot, c] == p;
        assert ColumnHolds(slot, log, c);
      }
    }

    /** One ring write: the position and its value go to the position's column. */
    method Write(slot: nat, q: int, v: KV, ghost log: Log<KV>, ghost steps: nat)
      requires Shaped() && slot < slots && Holds(slot, log, steps)
      requires log.cur <= q <= log.hi + 1 && log.hi - R < q && q < log.cur + steps
      modifies pos, kv
      ensures Holds(slot, log.Write(q, v), steps)
      ensures forall s, c :: 0 <= s < slots && 0 <= c < R && s != slot ==> pos[s, c] == old(pos[s, c]) && kv[s, c] == old(kv[s, c])
    {
      hide Column;
      var wc := Column(q, R);
      ghost var after := log.Write(q, v);
      label Before:
      pos[slot, wc] := q;
      kv[slot, wc] := v;
      forall c | 0 <= c < R
        ensures ColumnHolds(slot, after, c)
      {
        assert old@Before(ColumnHolds(slot, log, c));
        ghost var p := pos[slot, c];
        if c == wc {
          assert p == q && q in after.vals && q != -1;
        } else if p == -1 {
          assert old@Before(pos[slot, c]) == -1;
        } else {
          assert p == old@Before(pos[slot, c]) && kv[slot, c] == old@Before(kv[slot, c]);
          if q == log.hi + 1 && p == q - R {
            ColumnOfNext(p, R);
          }
          assert after.hi - R < p;
        }
      }
    }

    /** Some position of the seeded range belongs in column c. */
    ghost predicate Covered(origin: int, end: int, c: nat)
      requires R > 0
    {
      exists p :: SeedLow(R, origin, end) <= p < end && Column(p, R) == c
    }

    /** Record the seeded positions and the cursor. */
    method MarkSeeded(slot: nat, origin: int, end: int)
      requires Shaped() && slot < slots
      modifies pos, cur
      ensures cur[slot] == end && forall s :: 0 <= s < slots && s != slot ==> cur[s] == old(cur[s])
      ensures forall p :: SeedLow(R, origin, end) <= p < end ==> pos[slot, Column(p, R)] == p
      ensures forall s, c :: 0 <= s < slots && 0 <= c < R && (s != slot || !Covered(origin, end, c)) ==>
                pos[s, c] == old(pos[s, c])
    {
      hide Column;
      var runs := SeedRuns(R, origin, end);
      ghost var lo := SeedLow(R, origin, end);
      SeedRunsTile(R, origin, end);
      for i := 0 to |runs|
        invariant forall s :: 0 <= s < slots ==> cur[s] == old(cur[s])
        invariant forall p :: lo <= p < (if i == 0 then lo else runs[i - 1].p1) ==> pos[slot, Column(p, R)] == p
        invariant forall s, c :: 0 <= s < slots && 0 <= c < R && (s != slot || !Covered(origin, end, c)) ==>
                    pos[s, c] == old(pos[s, c])
      {
        for p := runs[i].p0 to runs[i].p1
          invariant forall s :: 0 <= s < slots ==> cur[s] == old(cur[s])
          invariant forall u :: lo <= u < p ==> pos[slot, Column(u, R)] == u
          invariant forall s, c :: 0 <= s < slots && 0 <= c < R && (s != slot || !Covered(origin, end, c)) ==>
                      pos[s, c] == old(pos[s, c])
        {
          OtherColumns(lo, p, R);
          pos[slot, Column(p, R)] := p;
        }
      }
      cur[slot] := end;
    }

    /** Write the prompt's values, run by run into consecutive columns. */
    method SeedValues(slot: nat, origin: int, end: int, seed: int -> KV)
      requires Shaped() && slot < slots
      modifies kv
      ensures forall p :: SeedLow(R, origin, end) <= p < end ==> kv[slot, Column(p, R)] == seed(p)
      ensures forall s, c :: 0 <= s < slots && 0 <= c < R && s != slot ==> kv[s, c] == old(kv[s, c])
    {
      hide Column;
      var runs := SeedRuns(R, origin, end);
      ghost var lo := SeedLow(R, origin, end);
      SeedRunsTile(R, origin, end);
      for i := 0 to |runs|
        invariant forall p :: lo <= p < (if i == 0 then lo else runs[i - 1].p1) ==> kv[slot, Column(p, R)] == seed(p)
        invariant forall s, c :: 0 <= s < slots && 0 <= c < R && s != slot ==> kv[s, c] == old(kv[s, c])
      {
        var r := runs[i];
        for p := r.p0 to r.p1
          invariant forall u :: lo <= u < p ==> kv[slot, Column(u, R)] == seed(u)
          invariant forall s, c :: 0 <= s < slots && 0 <= c < R && s != slot ==> kv[s, c] == old(kv[s, c])
        {
          OtherColumns(lo, p, R);
          kv[slot, r.col0 + (p - r.p0)] := seed(p);
        }
      }
    }

    /** Seed a prompt: the values, then the positions and the cursor. The slot stands for the prompt exactly
        when the columns the prompt does not reach were empty before. */
    method Seed(slot: nat, origin: int, end: int, seed: int -> KV, ghost steps: nat)
      requires Shaped() && slot < slots && origin >= 0 && end >= 0
      modifies pos, kv, cur
      ensures Holds(slot, SeededLog(origin, end, seed), steps)
              <==> forall c :: 0 <= c < R && !Covered(origin, end, c) ==> old(pos[slot, c]) == -1
      ensures forall s, c :: 0 <= s < slots && 0 <= c < R && s != slot ==>
                pos[s, c] == old(pos[s, c]) && kv[s, c] == old(kv[s, c]) && cur[s] == old(cur[s])
    {
      hide Column;
      SeedValues(slot, origin, end, seed);
      MarkSeeded(slot, origin, end);
      ghost var log := SeededLog(origin, end, seed);
      forall c | 0 <= c < R
        ensures ColumnHolds(slot, log, c) <==> Covered(origin, end, c) || old(pos[slot, c]) == -1
      {
        if p :| SeedLow(R, origin, end) <= p < end && Column(p, R) == c {
          assert pos[slot, c] == p;
        } else {
          assert !Covered(origin, end, c);
        }
      }
    }

    /** One propose step: write, look, draft. */
    method Step<X>(
      slot: nat, project: (X, int) -> KV, draft: (X, int, map<int, KV>) -> X, x: X, q: int, ghost log: Log<KV>, ghost steps: nat)
      returns (next: X)
      requires Shaped() && slot < slots && Holds(slot, log, steps)
      requires log.cur <= q <= log.hi + 1 && log.hi - R < q && q < log.cur + steps
      modifies pos, kv
      ensures next == draft(x, q, log.Write(q, project(x, q)).View(R, q))
      ensures Holds(slot, log.Write(q, project(x, q)), steps)
      ensures forall s, c :: 0 <= s < slots && 0 <= c < R && s != slot ==> pos[s, c] == old(pos[s, c]) && kv[s, c] == old(kv[s, c])
    {
      Write(slot, q, project(x, q), log, steps);
      VisibleIsView(slot, log.Write(q, project(x, q)), steps, q);
      next := draft(x, q, Visible(slot, q));
    }

    /** A propose call: each step writes its value, reads what is visible and drafts the next token. It
        drafts what the log would, and the slot stands for the log it leaves. */
    method Propose<X>(
      slot: nat, project: (X, int) -> KV, draft: (X, int, map<int, KV>) -> X, x0: X, n: nat, ghost log: Log<KV>, ghost steps: nat)
      returns (xs: seq<X>)
      requires Shaped() && slot < slots && Holds(slot, log, steps) && n <= steps <= R
      modifies pos, kv
      ensures xs == ProposeLog(project, draft, R, log, x0, log.cur, n).0
      ensures Holds(slot, ProposeLog(project, draft, R, log, x0, log.cur, n).1, steps)
      ensures forall s, c :: 0 <= s < slots && 0 <= c < R && s != slot ==> pos[s, c] == old(pos[s, c]) && kv[s, c] == old(kv[s, c])
    {
      hide ColumnHolds, ProposeLog, OnCourse;
      xs := [];
      var x, base := x0, cur[slot];
      ghost var lg := log;
      StartsOnCourse(project, draft, R, log, x0, base, n);
      for j := 0 to n
        invariant Holds(slot, lg, steps) && lg.cur == log.cur == base && log.hi <= lg.hi
        invariant lg.hi <= log.hi || lg.hi < base + j
        invariant base + j <= lg.hi + 1
        invariant OnCourse(project, draft, R, log, x0, base, n, xs, lg, x, j)
        invariant forall s, c :: 0 <= s < slots && 0 <= c < R && s != slot ==>
                    pos[s, c] == old(pos[s, c]) && kv[s, c] == old(kv[s, c])
      {
        var next := Step(slot, project, draft, x, base + j, lg, steps);
        StaysOnCourse(project, draft, R, log, x0, base, n, xs, lg, x, j);
        lg := lg.Write(base + j, project(x, base + j));
        x := next;
        xs := xs + [x];
      }
      EndsOnCourse(project, draft, R, log, x0, base, n, xs, lg, x);
    }

    /** Accepting moves the cursor over the tokens the target confirmed. */
    method Accept(slot: nat, advance: nat, ghost log: Log<KV>, ghost steps: nat)
      requires Shaped() && slot < slots && Holds(slot, log, steps) && advance <= log.hi + 1 - log.cur
      modifies cur
      ensures Holds(slot, log.(cur := log.cur + advance), steps)
      ensures forall s :: 0 <= s < slots && s != slot ==> cur[s] == old(cur[s])
    {
      cur[slot] := cur[slot] + advance;
      ghost var after := log.(cur := log.cur + advance);
      forall c | 0 <= c < R
        ensures ColumnHolds(slot, after, c)
      {
        assert ColumnHolds(slot, log, c);
      }
    }

    /** Rounds of proposing and accepting, one after another: the ring keeps standing for the log. */
    method Serve<X>(
      slot: nat, project: (X, int) -> KV, draft: (X, int, map<int, KV>) -> X, head: Head, accepted: seq<Accepted<X>>,
      ghost log: Log<KV>)
      requires Shaped() && slot < slots && Holds(slot, log, head.Steps()) && 1 <= head.Steps() <= R
      requires forall i :: 0 <= i < |accepted| ==> accepted[i].n <= head.k
      modifies pos, kv, cur
      ensures Holds(slot, RunRounds(project, draft, R, head.Steps(), log, RoundsOf(head, accepted)), head.Steps())
      ensures forall s, c :: 0 <= s < slots && 0 <= c < R && s != slot ==>
                pos[s, c] == old(pos[s, c]) && kv[s, c] == old(kv[s, c])
      ensures forall s :: 0 <= s < slots && s != slot ==> cur[s] == old(cur[s])
    {
      hide ColumnHolds, ProposeLog, RunRounds;
      var steps := head.Steps();
      ghost var rounds := RoundsOf(head, accepted);
      RoundsAreLegal(head, accepted);
      ghost var lg := log;
      assert rounds[0..] == rounds;
      for i := 0 to |accepted|
        invariant Holds(slot, lg, steps)
        invariant RunRounds(project, draft, R, steps, log, rounds) == RunRounds(project, draft, R, steps, lg, rounds[i..])
        invariant forall s, c :: 0 <= s < slots && 0 <= c < R && s != slot ==>
                    pos[s, c] == old(pos[s, c]) && kv[s, c] == old(kv[s, c])
        invariant forall s :: 0 <= s < slots && s != slot ==> cur[s] == old(cur[s])
      {
        ghost var r := rounds[i];
        ghost var after := ProposeLog(project, draft, R, lg, r.x, lg.cur, steps).1;
        ProposeWrites(project, draft, R, lg, r.x, lg.cur, steps);
        RunUnfold(project, draft, R, steps, lg, rounds, i);
        var _ := Propose(slot, project, draft, accepted[i].x, steps, lg, steps);
        Accept(slot, head.Advance(accepted[i].n), after, steps);
        lg := RunRound(project, draft, R, steps, lg, r);
        assert lg == after.(cur := after.cur + r.advance);
      }
      RunNothing(project, draft, R, steps, lg, rounds);
    }
  }

  lemma OtherColumns(lo: int, p: int, R: nat)
    requires R > 0 && p - lo < R
    ensures forall u :: lo <= u < p ==> Column(u, R) != Column(p, R)
  {
    forall u | lo <= u < p
      ensures Column(u, R) != Column(p, R)
    {
      if Column(u, R) == Column(p, R) {
        ColumnsDiffer(u, p, R);
      }
    }
  }

  // ----- whole runs -------------------------------------------------------------------------------

  /** The two kinds of draft head, with K drafts a round. One runs K + 1 steps, so that it has written every
      position it may confirm, the other K. */
  datatype Head = Mtp(k: nat) | Eagle3(k: nat) {
    function Steps(): nat {
      if Mtp? then k + 1 else k
    }

    /** How far the cursor moves when n drafts are accepted. */
    function Advance(n: nat): nat {
      if Mtp? then 1 + n else if 1 + n < k then 1 + n else k
    }
  }

  /** What a round starts from, and how many of its drafts the target accepts. */
  datatype Accepted<X> = Accepted(x: X, n: nat)

  function RoundsOf<X>(head: Head, accepted: seq<Accepted<X>>): (rounds: seq<Round<X>>)
    ensures |rounds| == |accepted|
    ensures forall i :: 0 <= i < |rounds| ==> rounds[i] == Round(accepted[i].x, head.Advance(accepted[i].n))
  {
    seq(|accepted|, i requires 0 <= i < |accepted| => Round(accepted[i].x, head.Advance(accepted[i].n)))
  }

  /** Under both cursor rules a round confirms at least one token and no more than it has written. */
  lemma RoundsAreLegal<X>(head: Head, accepted: seq<Accepted<X>>)
    requires head.Steps() >= 1 && forall i :: 0 <= i < |accepted| ==> accepted[i].n <= head.k
    ensures Legal(RoundsOf(head, accepted), head.Steps())
  {
  }

  /** The chain's own value at step i: the projection of the token drafted just before. */
  function ChainValue<X, KV>(project: (X, int) -> KV, x: X, xs: seq<X>, q: int, i: nat): KV
    requires i <= |xs|
  {
    project(if i == 0 then x else xs[i - 1], q + i)
  }

  /** What a propose call leaves in the log: the chain's values from q on, everything else as it was. */
  lemma {:induction false} ProposeWrites<X, KV>(
    project: (X, int) -> KV, draft: (X, int, map<int, KV>) -> X, R: nat, log: Log<KV>, x: X, q: int, n: nat)
    ensures var (xs, after) := ProposeLog(project, draft, R, log, x, q, n);
            && after.hi == (if n > 0 && q + n - 1 > log.hi then q + n - 1 else log.hi)
            && (forall p :: p in after.vals <==> p in log.vals || q <= p < q + n)
            && (forall p :: p in log.vals && !(q <= p < q + n) ==> after.vals[p] == log.vals[p])
            && forall p :: q <= p < q + n ==> after.vals[p] == ChainValue(project, x, xs, q, p - q)
    decreases n
  {
    if n > 0 {
      var written := log.Write(q, project(x, q));
      var next := draft(x, q, written.View(R, q));
      ProposeWrites(project, draft, R, written, next, q + 1, n - 1);
      var (ys, after) := ProposeLog(project, draft, R, written, next, q + 1, n - 1);
      var xs := ProposeLog(project, draft, R, log, x, q, n).0;
      assert xs == [next] + ys;
      forall p | q <= p < q + n
        ensures after.vals[p] == ChainValue(project, x, xs, q, p - q)
      {
        if p > q {
          assert after.vals[p] == ChainValue(project, next, ys, q + 1, p - (q + 1));
        }
      }
    }
  }

  /** One round: propose `steps` tokens from the cursor, then confirm some of what was written. */
  datatype Round<X> = Round(x: X, advance: nat)

  function RunRound<X, KV>(
    project: (X, int) -> KV, draft: (X, int, map<int, KV>) -> X, R: nat, steps: nat, log: Log<KV>, r: Round<X>): Log<KV>
  {
    var after := ProposeLog(project, draft, R, log, r.x, log.cur, steps).1;
    after.(cur := log.cur + r.advance)
  }

  function RunRounds<X, KV>(
    project: (X, int) -> KV, draft: (X, int, map<int, KV>) -> X, R: nat, steps: nat, log: Log<KV>, rounds: seq<Round<X>>): Log<KV>
    decreases rounds
  {
    if rounds == [] then log else
    RunRounds(project, draft, R, steps, RunRound(project, draft, R, steps, log, rounds[0]), rounds[1..])
  }

  lemma RunUnfold<X, KV>(
    project: (X, int) -> KV, draft: (X, int, map<int, KV>) -> X, R: nat, steps: nat, log: Log<KV>, rounds: seq<Round<X>>, i: nat)
    requires i < |rounds|
    ensures RunRounds(project, draft, R, steps, log, rounds[i..])
         == RunRounds(project, draft, R, steps, RunRound(project, draft, R, steps, log, rounds[i]), rounds[i + 1..])
  {
    hide RunRound;
    assert rounds[i..][1..] == rounds[i + 1..];
  }

  lemma RunNothing<X, KV>(
    project: (X, int) -> KV, draft: (X, int, map<int, KV>) -> X, R: nat, steps: nat, log: Log<KV>, rounds: seq<Round<X>>)
    ensures RunRounds(project, draft, R, steps, log, rounds[|rounds|..]) == log
  {
  }

  ghost predicate Legal<X>(rounds: seq<Round<X>>, steps: nat) {
    forall i :: 0 <= i < |rounds| ==> 1 <= rounds[i].advance <= steps
  }

  lemma RoundKeepsOk<X, KV>(
    project: (X, int) -> KV, draft: (X, int, map<int, KV>) -> X, R: nat, steps: nat, log: Log<KV>, r: Round<X>)
    requires log.Ok(steps) && 1 <= r.advance <= steps
    ensures RunRound(project, draft, R, steps, log, r).Ok(steps)
    ensures RunRound(project, draft, R, steps, log, r).base == log.base
    ensures forall p :: p in log.vals && p < log.cur ==>
              p in RunRound(project, draft, R, steps, log, r).vals
              && RunRound(project, draft, R, steps, log, r).vals[p] == log.vals[p]
  {
    ProposeWrites(project, draft, R, log, r.x, log.cur, steps);
  }

  /** Over every run of rounds the log stays contiguous with its cursor near the top, so the ring can
      keep standing for it; and a confirmed position never changes its value again. */
  lemma {:induction false} RunKeepsConfirmed<X, KV>(
    project: (X, int) -> KV, draft: (X, int, map<int, KV>) -> X, R: nat, steps: nat, log: Log<KV>, rounds: seq<Round<X>>)
    requires log.Ok(steps) && Legal(rounds, steps)
    ensures var after := RunRounds(project, draft, R, steps, log, rounds);
            && after.Ok(steps) && after.base == log.base && log.cur <= after.cur
            && forall p :: p in log.vals && p < log.cur ==> p in after.vals && after.vals[p] == log.vals[p]
    decreases rounds
  {
    if rounds != [] {
      RoundKeepsOk(project, draft, R, steps, log, rounds[0]);
      RunKeepsConfirmed(project, draft, R, steps, RunRound(project, draft, R, steps, log, rounds[0]), rounds[1..]);
    }
  }

  /** What step j of a round sees, after any run: exactly the positions after the base and within R of the
      highest ever written, up to its own, with no gap; each holds the confirmed value below the cursor
      and the round's own chain from the cursor on, never a rejected draft. */
  lemma VisibleDuringRound<X, KV>(
    project: (X, int) -> KV, draft: (X, int, map<int, KV>) -> X, R: nat, steps: nat, log: Log<KV>, x: X, j: nat)
    requires log.Ok(steps) && j < steps <= R
    ensures var (xs, now) := ProposeLog(project, draft, R, log, x, log.cur, j + 1);
            var q := log.cur + j;
            var view := now.View(R, q);
            && now.hi == (if q > log.hi then q else log.hi)
            && (forall p :: p in view <==> log.base < p && now.hi - R < p <= q)
            && q in view
            && forall p :: p in view ==>
                 view[p] == if p < log.cur then log.vals[p] else ChainValue(project, x, xs, log.cur, p - log.cur)
  {
    ProposeWrites(project, draft, R, log, x, log.cur, j + 1);
  }

  /** What each step drafts from: the token before it, and what the ring shows once the step's own value is
      written. */
  lemma {:induction false} DraftSeesOwnWrite<X, KV>(
    project: (X, int) -> KV, draft: (X, int, map<int, KV>) -> X, R: nat, log: Log<KV>, x: X, q: int, n: nat, j: nat)
    requires j < n
    ensures var xs := ProposeLog(project, draft, R, log, x, q, n).0;
            xs[j] == draft(if j == 0 then x else xs[j - 1], q + j,
                           ProposeLog(project, draft, R, log, x, q, j + 1).1.View(R, q + j))
    decreases n
  {
    var written := log.Write(q, project(x, q));
    var next := draft(x, q, written.View(R, q));
    if j == 0 {
      ProposeNothing(project, draft, R, written, next, q + 1);
    } else {
      DraftSeesOwnWrite(project, draft, R, written, next, q + 1, n - 1, j - 1);
    }
  }

  /** The last position a round of the head writes, counted from the cursor. */
  function LastStep(head: Head): int {
    match head
    case Mtp(k) => k
    case Eagle3(k) => k - 1
  }

  /** A round with n accepted drafts writes every position up to its last step, and confirms of these exactly
      its own token and the accepted drafts: none of them is lost, and no rejected one is confirmed. */
  ghost predicate Confirms<KV>(head: Head, n: nat, before: Log<KV>, after: Log<KV>) {
    && after.hi == Max(before.hi, before.cur + LastStep(head))
    && forall p :: before.cur <= p <= before.cur + LastStep(head) ==> p in after.vals && (p < after.cur <==> p <= before.cur + n)
  }

  lemma RoundConfirms<X, KV>(
    project: (X, int) -> KV, draft: (X, int, map<int, KV>) -> X, R: nat, head: Head, log: Log<KV>, a: Accepted<X>)
    requires head.Steps() >= 1 && a.n <= head.k
    ensures Confirms(head, a.n, log, RunRound(project, draft, R, head.Steps(), log, Round(a.x, head.Advance(a.n))))
  {
    ProposeWrites(project, draft, R, log, a.x, log.cur, head.Steps());
  }

  lemma {:induction false} RunAppend<X, KV>(
    project: (X, int) -> KV, draft: (X, int, map<int, KV>) -> X, R: nat, steps: nat, log: Log<KV>, rounds: seq<Round<X>>, r: Round<X>)
    ensures RunRounds(project, draft, R, steps, log, rounds + [r])
         == RunRound(project, draft, R, steps, RunRounds(project, draft, R, steps, log, rounds), r)
    decreases rounds
  {
    hide RunRound;
    if rounds == [] {
      assert [r][1..] == [] && rounds + [r] == [r];
    } else {
      assert (rounds + [r])[1..] == rounds[1..] + [r];
      RunAppend(project, draft, R, steps, RunRound(project, draft, R, steps, log, rounds[0]), rounds[1..], r);
    }
  }

  /** So does every round of a run, from whatever the rounds before it have left. */
  lemma EveryRoundConfirms<X, KV>(
    project: (X, int) -> KV, draft: (X, int, map<int, KV>) -> X, R: nat, head: Head, log: Log<KV>, accepted: seq<Accepted<X>>, i: nat)
    requires head.Steps() >= 1 && i < |accepted| && accepted[i].n <= head.k
    ensures Confirms(head, accepted[i].n,
                     RunRounds(project, draft, R, head.Steps(), log, RoundsOf(head, accepted[..i])),
                     RunRounds(project, draft, R, head.Steps(), log, RoundsOf(head, accepted[..i + 1])))
  {
    hide RunRound, RunRounds, RoundsOf, Confirms;
    var a := accepted[i];
    var r := Round(a.x, head.Advance(a.n));
    var before := RunRounds(project, draft, R, head.Steps(), log, RoundsOf(head, accepted[..i]));
    assert RoundsOf(head, accepted[..i + 1]) == RoundsOf(head, accepted[..i]) + [r];
    RunAppend(project, draft, R, head.Steps(), log, RoundsOf(head, accepted[..i]), r);
    RoundConfirms(project, draft, R, head, before, a);
  }

  /** The distance test alone promises the R positions up to the query. The ring shows all of them
      exactly when no draft beyond the query is on record, or nothing as old as the window's edge was
      ever written: stale drafts are never visible, but each one costs a position of history. */
  lemma FullWindowIff<KV>(log: Log<KV>, steps: nat, R: nat, q: int)
    requires log.Ok(steps) && steps <= R && log.cur <= q <= log.hi
    ensures (forall p :: p in log.vals && q - R < p <= q ==> p in log.View(R, q))
            <==> log.hi == q || log.hi - R <= log.base
  {
    var edge := log.hi - R;
    if log.hi != q && edge > log.base {
      assert edge in log.vals && q - R < edge <= q && edge !in log.View(R, q);
    }
  }
}

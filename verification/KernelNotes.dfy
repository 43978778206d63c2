/** Scraping kernel records out of a rendered metadata note: one record ends where a key repeats. */
module KernelNotes {
  import opened Strings
  import opened Wrappers

  /** A field of a record: the name as text, everything else as a number. */
  datatype Value = Text(text: string) | Number(number: int)

  type Record = map<string, Value>

  const FIELDS: map<string, string> := map[
    ".vgpr_count" := "vgpr", ".sgpr_count" := "sgpr",
    ".private_segment_fixed_size" := "scratch", ".group_segment_fixed_size" := "lds",
    ".vgpr_spill_count" := "spill", ".sgpr_spill_count" := "sgpr_spill",
    ".max_flat_workgroup_size" := "max_wg", ".name" := "name"
  ]

  const NAME: string := "name"

  // ----- one line -------------------------------------------------------------------------------

  predicate IsSpace(c: char) {
    var u := c as int;
    9 <= u <= 13 || 28 <= u <= 32 || u in {0x85, 0xA0, 0x1680, 0x2028, 0x2029, 0x202F, 0x205F, 0x3000} || 0x2000 <= u <= 0x200A
  }

  predicate IsComma(c: char) { c == ',' }

  predicate IsQuote(c: char) { c == '"' }

  function KeyOf(line: string): string {
    var s := Strip(IsSpace, line);
    Strip(IsSpace, s[..Find(':', s)])
  }

  /** What follows the first colon; a line without one is an index error in the source. */
  function ValueText(line: string): Option<string> {
    var i := Find(':', line);
    if i == |line| then None else Some(Strip(IsQuote, Strip(IsComma, Strip(IsSpace, line[i + 1..]))))
  }

  function ValueOf(toInt: string -> int, field: string, text: string): Value {
    if field == NAME then Text(text) else Number(toInt(text))
  }

  type Pair = (string, Value)

  /** The field a line carries: None when it is no field line, Some(None) when it breaks the scraper. */
  function PairOf(toInt: string -> int, line: string): Option<Option<Pair>> {
    if KeyOf(line) !in FIELDS then None else
    match ValueText(line)
    case None => Some(None)
    case Some(text) => Some(Some((FIELDS[KeyOf(line)], ValueOf(toInt, FIELDS[KeyOf(line)], text))))
  }

  /** All fields of a text, or None when some line breaks the scraper. */
  function PairsOf(toInt: string -> int, lines: seq<string>): Option<seq<Pair>> {
    if lines == [] then Some([]) else
    var rest := PairsOf(toInt, lines[1..]);
    match PairOf(toInt, lines[0])
    case None => rest
    case Some(None) => None
    case Some(Some(p)) => After([p], rest)
  }

  lemma KeyOfRendered(indent: string, key: string, rest: string, tail: string)
    requires key in FIELDS && All(IsSpace, indent) && All(IsSpace, tail) && rest != "" && !IsSpace(rest[|rest| - 1])
    ensures KeyOf(indent + key + ":" + rest + tail) == key
  {
    hide FIELDS;
    FieldKeyIsPlain(key);
    var body := key + ":" + rest;
    assert indent + key + ":" + rest + tail == indent + body + tail;
    StripPadded(IsSpace, indent, body, tail);
    FindIs(':', body, |key|);
    assert body[..|key|] == key;
  }

  /** The value as it stands in the line: quotes around the text, commas after it. */
  function Dressed(open: string, text: string, close: string, commas: string): (m: string)
    ensures |m| == |open| + |text| + |close| + |commas|
  {
    open + text + close + commas
  }

  /** What stripping takes off the text's dress and no more: the text itself neither starts nor ends with a
      quote, and a comma or blank at its ends is inside quotes. */
  ghost predicate Plain(open: string, text: string, close: string, commas: string) {
    && All(IsQuote, open) && All(IsQuote, close) && All(IsComma, commas) && text != ""
    && Trimmed(IsQuote, text) && Trimmed(IsComma, open + text + close)
    && Trimmed(IsSpace, Dressed(open, text, close, commas))
  }

  lemma AfterColon(line: string, front: string, rest: string)
    requires line == front + ":" + rest && ':' !in front
    ensures Find(':', line) == |front| < |line| && line[|front| + 1..] == rest
  {
    FindIs(':', line, |front|);
  }

  /** A field line as the note renders it is read back, whatever its indentation and padding, in quotes or
      without, before a comma or not. */
  lemma RenderedLine(toInt: string -> int, indent: string, key: string, pad: string, open: string, text: string,
                     close: string, commas: string, tail: string)
    requires key in FIELDS && All(IsSpace, indent) && All(IsSpace, pad) && All(IsSpace, tail)
    requires Plain(open, text, close, commas)
    ensures PairOf(toInt, indent + key + ":" + (pad + Dressed(open, text, close, commas)) + tail)
         == Some(Some((FIELDS[key], if FIELDS[key] == "name" then Text(text) else Number(toInt(text)))))
  {
    hide FIELDS, KeyOf, StripLeft, StripRight, Strip;
    FieldKeyIsPlain(key);
    var middle := Dressed(open, text, close, commas);
    assert (pad + middle)[|pad + middle| - 1] == middle[|middle| - 1];
    KeyOfRendered(indent, key, pad + middle, tail);
    StripPadded(IsSpace, pad, middle, tail);
    assert "" + (open + text + close) + commas == middle;
    StripPadded(IsComma, "", open + text + close, commas);
    StripPadded(IsQuote, open, text, close);
    var line := indent + key + ":" + (pad + middle) + tail;
    assert line == (indent + key) + ":" + (pad + middle + tail);
    assert ':' !in indent + key;
    AfterColon(line, indent + key, pad + middle + tail);
  }

  /** No two keys are stored under one field, so that a field repeats only when its key does. */
  lemma FieldsDiffer(key: string, other: string)
    requires key in FIELDS && other in FIELDS && FIELDS[key] == FIELDS[other]
    ensures key == other
  {
  }

  lemma FieldKeyIsPlain(key: string)
    requires key in FIELDS
    ensures key != "" && Trimmed(IsSpace, key) && forall i :: 0 <= i < |key| ==> key[i] != ':'
  {
  }

  // ----- the record loop ------------------------------------------------------------------------

  datatype Scan = Scan(out: map<string, Record>, cur: Record)

  /** A record is stored under its name and, since its copy is made first, still holds it. */
  function Flush(s: Scan): map<string, Record> {
    if NAME in s.cur && s.cur[NAME].Text? then s.out[s.cur[NAME].text := s.cur] else s.out
  }

  function Feed(s: Scan, p: Pair): Scan {
    if p.0 in s.cur then Scan(Flush(s), map[p.0 := p.1]) else s.(cur := s.cur[p.0 := p.1])
  }

  function FeedAll(s: Scan, ps: seq<Pair>): Scan
    decreases ps
  {
    if ps == [] then s else FeedAll(Feed(s, ps[0]), ps[1..])
  }

  function Parse(ps: seq<Pair>): map<string, Record> {
    Flush(FeedAll(Scan(map[], map[]), ps))
  }

  lemma {:induction false} FeedConcat(s: Scan, ps: seq<Pair>, qs: seq<Pair>)
    ensures FeedAll(s, ps + qs) == FeedAll(FeedAll(s, ps), qs)
    decreases ps
  {
    if ps == [] {
      assert ps + qs == qs;
    } else {
      assert (ps + qs)[1..] == ps[1..] + qs;
      FeedConcat(Feed(s, ps[0]), ps[1..], qs);
    }
  }

  /** The fields still to come, put after those already seen. */
  function After(seen: seq<Pair>, rest: Option<seq<Pair>>): Option<seq<Pair>> {
    if rest.None? then None else Some(seen + rest.value)
  }

  lemma AfterNothing(rest: Option<seq<Pair>>)
    ensures After([], rest) == rest
  {
    if rest.Some? {
      assert [] + rest.value == rest.value;
    }
  }

  lemma AfterOne(seen: seq<Pair>, p: Pair, rest: Option<seq<Pair>>)
    ensures After(seen, After([p], rest)) == After(seen + [p], rest)
  {
    if rest.Some? {
      assert seen + ([p] + rest.value) == (seen + [p]) + rest.value;
    }
  }

  /** What a note's lines amount to: the records, or None when some line breaks the scraper. */
  function Parsed(toInt: string -> int, lines: seq<string>): Option<map<string, Record>> {
    match PairsOf(toInt, lines)
    case None => None
    case Some(ps) => Some(Parse(ps))
  }

  /** The scraper breaks exactly on a field's key that no colon follows. */
  lemma {:induction false} BreaksIff(toInt: string -> int, lines: seq<string>)
    ensures Parsed(toInt, lines).None? <==> exists i :: 0 <= i < |lines| && KeyOf(lines[i]) in FIELDS && ':' !in lines[i]
  {
    hide KeyOf, FIELDS;
    if lines != [] {
      var rest := lines[1..];
      BreaksIff(toInt, rest);
      assert Find(':', lines[0]) == |lines[0]| <==> ':' !in lines[0];
      if i :| 0 <= i < |lines| && KeyOf(lines[i]) in FIELDS && ':' !in lines[i] {
        assert i > 0 ==> lines[i] == rest[i - 1];
      }
      if i :| 0 <= i < |rest| && KeyOf(rest[i]) in FIELDS && ':' !in rest[i] {
        assert rest[i] == lines[i + 1];
      }
    }
  }

  /** The scraper's loop over the lines of a note. */
  method ParseNotesText(toInt: string -> int, lines: seq<string>) returns (r: Option<map<string, Record>>)
    ensures r == Parsed(toInt, lines)
  {
    var out: map<string, Record>, cur: Record := map[], map[];
    ghost var seen: seq<Pair> := [];
    assert lines[0..] == lines;
    AfterNothing(PairsOf(toInt, lines));
    for i := 0 to |lines|
      invariant FeedAll(Scan(map[], map[]), seen) == Scan(out, cur)
      invariant PairsOf(toInt, lines) == After(seen, PairsOf(toInt, lines[i..]))
    {
      assert lines[i..][0] == lines[i] && lines[i..][1..] == lines[i + 1..];
      var key := KeyOf(lines[i]);
      if key in FIELDS {
        var field := FIELDS[key];
        var text := ValueText(lines[i]);
        if text.None? {
          return None;
        }
        var val := ValueOf(toInt, field, text.value);
        AfterOne(seen, (field, val), PairsOf(toInt, lines[i + 1..]));
        FeedOneMore(Scan(map[], map[]), seen, (field, val));
        if field in cur {
          out := Flush(Scan(out, cur));
          cur := map[];
        }
        cur := cur[field := val];
        seen := seen + [(field, val)];
      }
    }
    assert PairsOf(toInt, lines[|lines|..]) == Some([]);
    assert seen + [] == seen;
    r := Some(Flush(Scan(out, cur)));
  }

  lemma FeedOneMore(s: Scan, ps: seq<Pair>, p: Pair)
    ensures FeedAll(s, ps + [p]) == Feed(FeedAll(s, ps), p)
  {
    FeedConcat(s, ps, [p]);
    assert [p][1..] == [];
  }

  // ----- round trip -----------------------------------------------------------------------------

  ghost predicate DistinctKeys(ps: seq<Pair>) {
    forall i, j :: 0 <= i < j < |ps| ==> ps[i].0 != ps[j].0
  }

  ghost predicate HasKey(ps: seq<Pair>, key: string) {
    exists i :: 0 <= i < |ps| && ps[i].0 == key
  }

  function AsMap(ps: seq<Pair>): (m: Record)
    ensures forall k :: k in m <==> HasKey(ps, k)
  {
    if ps == [] then map[] else
    var last := ps[|ps| - 1];
    var m := AsMap(ps[..|ps| - 1])[last.0 := last.1];
    assert forall k :: k in m <==> HasKey(ps, k) by {
      forall k
        ensures k in m <==> HasKey(ps, k)
      {
        if HasKey(ps, k) && k != last.0 {
          var i :| 0 <= i < |ps| && ps[i].0 == k;
          assert ps[..|ps| - 1][i].0 == k;
        }
        if HasKey(ps[..|ps| - 1], k) {
          var i :| 0 <= i < |ps| - 1 && ps[..|ps| - 1][i].0 == k;
          assert ps[i].0 == k;
        }
        assert ps[|ps| - 1].0 == last.0;
      }
    }
    m
  }

  lemma AsMapSnoc(ps: seq<Pair>, p: Pair)
    ensures AsMap(ps + [p]) == AsMap(ps)[p.0 := p.1]
  {
    assert (ps + [p])[..|ps|] == ps;
  }

  lemma FeedNew(s: Scan, t: Scan, ps: seq<Pair>, p: Pair)
    requires t == s.(cur := s.cur + AsMap(ps)) && p.0 !in s.cur && !HasKey(ps, p.0)
    ensures Feed(t, p) == s.(cur := s.cur + AsMap(ps + [p]))
  {
    hide AsMap, HasKey;
    AsMapSnoc(ps, p);
    assert p.0 !in AsMap(ps);
    assert t.cur[p.0 := p.1] == s.cur + AsMap(ps)[p.0 := p.1];
  }

  /** Fields that do not repeat pile up in the current record. */
  lemma {:induction false} FeedDistinct(s: Scan, ps: seq<Pair>)
    requires DistinctKeys(ps) && forall i :: 0 <= i < |ps| ==> ps[i].0 !in s.cur
    ensures FeedAll(s, ps) == s.(cur := s.cur + AsMap(ps))
  {
    hide Feed, FeedAll, AsMap;
    if ps == [] {
      FeedNothing(s);
    } else {
      var before, last := ps[..|ps| - 1], ps[|ps| - 1];
      assert ps == before + [last];
      FeedDistinct(s, before);
      FeedOneMore(s, before, last);
      FeedNew(s, FeedAll(s, before), before, last);
    }
  }

  lemma FeedNothing(s: Scan)
    ensures FeedAll(s, []) == s == s.(cur := s.cur + AsMap([]))
  {
    assert s.cur + map[] == s.cur;
  }

  /** A record's fields, each once, with a name among them. */
  ghost predicate IsRecord(ps: seq<Pair>) {
    ps != [] && DistinctKeys(ps) && HasKey(ps, NAME) && forall i :: 0 <= i < |ps| ==> (ps[i].0 == NAME ==> ps[i].1.Text?)
  }

  lemma {:induction false} NameIsText(ps: seq<Pair>)
    requires IsRecord(ps)
    ensures NAME in AsMap(ps) && AsMap(ps)[NAME].Text?
  {
    AsMapValue(ps, NAME);
  }

  lemma {:induction false} AsMapValue(ps: seq<Pair>, key: string)
    requires HasKey(ps, key)
    ensures exists i :: 0 <= i < |ps| && ps[i].0 == key && AsMap(ps)[key] == ps[i].1
  {
    var last := ps[|ps| - 1];
    if last.0 != key {
      assert HasKey(ps[..|ps| - 1], key) by {
        var i :| 0 <= i < |ps| && ps[i].0 == key;
        assert ps[..|ps| - 1][i].0 == key;
      }
      AsMapValue(ps[..|ps| - 1], key);
      var i :| 0 <= i < |ps| - 1 && ps[..|ps| - 1][i].0 == key && AsMap(ps[..|ps| - 1])[key] == ps[..|ps| - 1][i].1;
      assert ps[i].0 == key && AsMap(ps)[key] == ps[i].1;
    } else {
      assert ps[|ps| - 1].0 == key && AsMap(ps)[key] == last.1;
    }
  }

  function NameOf(ps: seq<Pair>): string
    requires IsRecord(ps)
  {
    NameIsText(ps);
    AsMap(ps)[NAME].text
  }

  ghost predicate Records(rs: seq<seq<Pair>>) {
    forall i :: 0 <= i < |rs| ==> IsRecord(rs[i])
  }

  ghost predicate DistinctNames(rs: seq<seq<Pair>>)
    requires Records(rs)
  {
    forall i, j :: 0 <= i < j < |rs| ==> NameOf(rs[i]) != NameOf(rs[j])
  }

  /** Each record starts with a key its predecessor has. */
  ghost predicate Chained(rs: seq<seq<Pair>>)
    requires Records(rs)
  {
    forall i :: 1 <= i < |rs| ==> HasKey(rs[i - 1], rs[i][0].0)
  }

  function Flat(rs: seq<seq<Pair>>): seq<Pair> {
    if rs == [] then [] else Flat(rs[..|rs| - 1]) + rs[|rs| - 1]
  }

  function Stored(rs: seq<seq<Pair>>): map<string, Record>
    requires Records(rs)
  {
    if rs == [] then map[] else
    Stored(rs[..|rs| - 1])[NameOf(rs[|rs| - 1]) := AsMap(rs[|rs| - 1])]
  }

  /** A record fed after a repeat replaces the current one whole. */
  lemma FeedRecord(s: Scan, ps: seq<Pair>)
    requires IsRecord(ps) && (ps[0].0 in s.cur || s.cur == map[])
    ensures FeedAll(s, ps) == Scan(if s.cur == map[] then s.out else Flush(s), AsMap(ps))
  {
    hide AsMap, Flush;
    var t := Feed(s, ps[0]);
    assert t.cur == map[ps[0].0 := ps[0].1];
    FeedDistinct(t, ps[1..]);
    FirstPlusRest(ps);
  }

  lemma FirstPlusRest(ps: seq<Pair>)
    requires ps != []
    ensures AsMap(ps) == map[ps[0].0 := ps[0].1] + AsMap(ps[1..])
  {
    assert ps == [ps[0]] + ps[1..];
    AsMapConcat([ps[0]], ps[1..]);
    assert [ps[0]] == [] + [ps[0]];
    AsMapSnoc([], ps[0]);
  }

  lemma {:induction false} AsMapConcat(ps: seq<Pair>, qs: seq<Pair>)
    ensures AsMap(ps + qs) == AsMap(ps) + AsMap(qs)
  {
    if qs == [] {
      assert ps + qs == ps;
      assert AsMap(ps) + map[] == AsMap(ps);
    } else {
      assert (ps + qs)[..|ps + qs| - 1] == ps + qs[..|qs| - 1];
      AsMapConcat(ps, qs[..|qs| - 1]);
    }
  }

  lemma {:induction false} ScanOfRecords(rs: seq<seq<Pair>>)
    requires Records(rs) && Chained(rs) && rs != []
    ensures FeedAll(Scan(map[], map[]), Flat(rs)) == Scan(Stored(rs[..|rs| - 1]), AsMap(rs[|rs| - 1]))
  {
    var before, last := rs[..|rs| - 1], rs[|rs| - 1];
    var s := FeedAll(Scan(map[], map[]), Flat(before));
    FeedConcat(Scan(map[], map[]), Flat(before), last);
    if before == [] {
      FeedRecord(s, last);
    } else {
      ScanOfRecords(before);
      NameIsText(before[|before| - 1]);
      assert HasKey(rs[|rs| - 2], last[0].0);
      FeedRecord(s, last);
    }
  }

  /** Records in, records out: every record is stored whole under its own name. */
  lemma ParseRoundTrip(rs: seq<seq<Pair>>)
    requires Records(rs) && Chained(rs)
    ensures Parse(Flat(rs)) == Stored(rs)
  {
    if rs != [] {
      ScanOfRecords(rs);
      NameIsText(rs[|rs| - 1]);
    }
  }

  /** With distinct names no record is lost and no field has moved to a neighbour. */
  lemma {:induction false} StoredUnderOwnName(rs: seq<seq<Pair>>, k: nat)
    requires Records(rs) && DistinctNames(rs) && k < |rs|
    ensures NameOf(rs[k]) in Stored(rs) && Stored(rs)[NameOf(rs[k])] == AsMap(rs[k])
  {
    hide AsMap, IsRecord, NameOf;
    if k < |rs| - 1 {
      StoredUnderOwnName(rs[..|rs| - 1], k);
    }
  }

  // ----- exactly when the split is right ----------------------------------------------------------

  lemma {:induction false} FlatConcat(rs: seq<seq<Pair>>, qs: seq<seq<Pair>>)
    ensures Flat(rs + qs) == Flat(rs) + Flat(qs)
  {
    if qs == [] {
      assert rs + qs == rs;
    } else {
      assert (rs + qs)[..|rs + qs| - 1] == rs + qs[..|qs| - 1];
      FlatConcat(rs, qs[..|qs| - 1]);
    }
  }

  lemma FlatAround(rs: seq<seq<Pair>>, i: nat)
    requires i < |rs|
    ensures Flat(rs) == Flat(rs[..i]) + (rs[i] + Flat(rs[i + 1..]))
  {
    hide Flat;
    var rest := [rs[i]] + rs[i + 1..];
    SplitAround(rs, i);
    FlatConcat(rs[..i], rest);
    FlatConcat([rs[i]], rs[i + 1..]);
    FlatOne(rs[i]);
    assert Flat(rest) == rs[i] + Flat(rs[i + 1..]);
  }

  lemma SplitAround<T>(s: seq<T>, i: nat)
    requires i < |s|
    ensures s == s[..i] + ([s[i]] + s[i + 1..])
  {
  }

  lemma FlatOne(r: seq<Pair>)
    ensures Flat([r]) == r
  {
    assert [r][..0] == [] && [] + r == r;
  }

  lemma {:induction false} FlatMember(rs: seq<seq<Pair>>, p: Pair) returns (i: nat)
    requires p in Flat(rs)
    ensures i < |rs| && p in rs[i]
  {
    var last := |rs| - 1;
    if p in rs[last] {
      i := last;
    } else {
      i := FlatMember(rs[..last], p);
    }
  }

  lemma NameField(ps: seq<Pair>, p: Pair)
    requires IsRecord(ps) && p in ps && p.0 == NAME
    ensures p.1 == Text(NameOf(ps))
  {
    hide AsMap;
    NameIsText(ps);
    AsMapValue(ps, NAME);
    var i :| 0 <= i < |ps| && ps[i] == p;
    var j :| 0 <= j < |ps| && ps[j].0 == NAME && AsMap(ps)[NAME] == ps[j].1;
    assert i == j;
  }

  /** None of the fields names a record so. */
  ghost predicate NotNamed(ps: seq<Pair>, name: string) {
    forall p :: p in ps && p.0 == NAME ==> p.1 != Text(name)
  }

  lemma LaterNotNamed(rs: seq<seq<Pair>>, i: nat)
    requires Records(rs) && DistinctNames(rs) && 1 <= i <= |rs|
    ensures NotNamed(Flat(rs[i..]), NameOf(rs[i - 1]))
  {
    hide IsRecord, NameOf, Flat;
    forall p | p in Flat(rs[i..]) && p.0 == NAME
      ensures p.1 != Text(NameOf(rs[i - 1]))
    {
      var j := FlatMember(rs[i..], p);
      NameField(rs[i + j], p);
    }
  }

  /** The stored entry under name holds key, and the current record will not replace it. */
  ghost predicate Misfiled(s: Scan, name: string, key: string) {
    name in s.out && key in s.out[name] && (NAME in s.cur ==> s.cur[NAME] != Text(name))
  }

  /** An entry stays as it is while no field names it again. */
  lemma {:induction false} StaysMisfiled(s: Scan, ps: seq<Pair>, name: string, key: string)
    requires Misfiled(s, name, key) && NotNamed(ps, name)
    ensures Misfiled(FeedAll(s, ps), name, key)
    decreases ps
  {
    if ps != [] {
      assert ps[0] in ps;
      StaysMisfiled(Feed(s, ps[0]), ps[1..], name, key);
    }
  }

  lemma FirstRepeat(a: seq<Pair>, b: seq<Pair>) returns (k: nat)
    requires IsRecord(a) && IsRecord(b) && !HasKey(a, b[0].0)
    ensures 0 < k < |b| && HasKey(a, b[k].0) && forall i :: 0 <= i < k ==> !HasKey(a, b[i].0)
  {
    var n :| 0 <= n < |b| && b[n].0 == NAME;
    k := 0;
    while !HasKey(a, b[k].0)
      invariant k <= n && forall i :: 0 <= i < k ==> !HasKey(a, b[i].0)
      decreases n - k
    {
      k := k + 1;
    }
  }

  /** Until a key repeats, the second record's fields are filed under the first. */
  lemma PrefixJoins(s: Scan, a: seq<Pair>, b: seq<Pair>, k: nat)
    requires IsRecord(a) && IsRecord(b) && s.cur == AsMap(a) && 0 < k < |b| && HasKey(a, b[k].0)
    requires forall i :: 0 <= i < k ==> !HasKey(a, b[i].0)
    ensures var t := FeedAll(s, b[..k]);
            && b[k].0 in t.cur && b[0].0 in t.cur && NAME in t.cur && t.cur[NAME] == Text(NameOf(a))
  {
    hide FeedAll;
    FeedDistinct(s, b[..k]);
    NameIsText(a);
    assert HasKey(b[..k], b[0].0) by { assert b[..k][0].0 == b[0].0; }
  }

  lemma RepeatFiles(t: Scan, a: seq<Pair>, b: seq<Pair>, k: nat)
    requires IsRecord(a) && IsRecord(b) && NameOf(a) != NameOf(b) && 0 < k < |b|
    requires b[k].0 in t.cur && b[0].0 in t.cur && NAME in t.cur && t.cur[NAME] == Text(NameOf(a))
    ensures Misfiled(Feed(t, b[k]), NameOf(a), b[0].0)
  {
    hide IsRecord, NameOf;
    if b[k].0 == NAME {
      NameField(b, b[k]);
    }
  }

  /** A record that starts with a key its predecessor lacks leaves its own first field there. */
  lemma BrokenLink(s: Scan, a: seq<Pair>, b: seq<Pair>, later: seq<Pair>)
    requires IsRecord(a) && IsRecord(b) && NameOf(a) != NameOf(b) && !HasKey(a, b[0].0)
    requires s.cur == AsMap(a) && NotNamed(b + later, NameOf(a))
    ensures Misfiled(FeedAll(s, b + later), NameOf(a), b[0].0)
  {
    hide Feed, FeedAll, AsMap, IsRecord, NameOf, Misfiled;
    var k := FirstRepeat(a, b);
    var t := FeedAll(s, b[..k]);
    PrefixJoins(s, a, b, k);
    RepeatFiles(t, a, b, k);
    var rest := b[k + 1..] + later;
    assert b + later == b[..k] + [b[k]] + rest;
    FeedConcat(s, b[..k] + [b[k]], rest);
    FeedOneMore(s, b[..k], b[k]);
    assert forall p :: p in rest ==> p in b + later;
    StaysMisfiled(Feed(t, b[k]), rest, NameOf(a), b[0].0);
  }

  lemma {:induction false} FirstBroken(rs: seq<seq<Pair>>) returns (i: nat)
    requires Records(rs) && !Chained(rs)
    ensures 1 <= i < |rs| && !HasKey(rs[i - 1], rs[i][0].0) && Chained(rs[..i])
  {
    hide IsRecord, HasKey;
    var before := rs[..|rs| - 1];
    if Chained(before) {
      i := |rs| - 1;
    } else {
      i := FirstBroken(before);
      assert before[..i] == rs[..i];
    }
  }

  /** At the first broken link the predecessor's entry goes wrong, and stays wrong to the end. */
  lemma BrokenChain(rs: seq<seq<Pair>>) returns (i: nat)
    requires Records(rs) && DistinctNames(rs) && !Chained(rs)
    ensures 1 <= i < |rs| && !HasKey(rs[i - 1], rs[i][0].0)
    ensures Misfiled(FeedAll(Scan(map[], map[]), Flat(rs)), NameOf(rs[i - 1]), rs[i][0].0)
  {
    hide FeedAll, AsMap, HasKey, NameOf, Flat, Stored, IsRecord, Misfiled, NotNamed;
    i := FirstBroken(rs);
    ScanOfRecords(rs[..i]);
    FlatAround(rs, i);
    FeedConcat(Scan(map[], map[]), Flat(rs[..i]), rs[i] + Flat(rs[i + 1..]));
    LaterFields(rs, i);
    BrokenLink(FeedAll(Scan(map[], map[]), Flat(rs[..i])), rs[i - 1], rs[i], Flat(rs[i + 1..]));
  }

  /** The split gets every record right exactly when each record starts with a key its predecessor has. */
  lemma ParseExactIff(rs: seq<seq<Pair>>)
    requires Records(rs) && DistinctNames(rs)
    ensures Parse(Flat(rs)) == Stored(rs) <==> Chained(rs)
  {
    hide FeedAll, AsMap, HasKey, NameOf, Flat, Stored;
    if Chained(rs) {
      ParseRoundTrip(rs);
    } else {
      var i := BrokenChain(rs);
      StoredUnderOwnName(rs, i - 1);
      assert rs[i][0].0 !in AsMap(rs[i - 1]);
    }
  }

  lemma LaterFields(rs: seq<seq<Pair>>, i: nat)
    requires Records(rs) && DistinctNames(rs) && 1 <= i < |rs|
    ensures NotNamed(rs[i] + Flat(rs[i + 1..]), NameOf(rs[i - 1]))
  {
    LaterNotNamed(rs, i);
    FlatAround(rs[i..], 0);
    assert rs[i..][1..] == rs[i + 1..] && rs[i..][..0] == [];
  }

  // ----- whole notes ------------------------------------------------------------------------------

  function Rank(order: seq<string>, key: string): (r: nat)
    ensures r <= |order| && (r < |order| ==> order[r] == key) && forall j :: 0 <= j < r ==> order[j] != key
  {
    if order == [] || order[0] == key then 0 else 1 + Rank(order[1..], key)
  }

  /** The fields come in the given order of keys. */
  ghost predicate InOrder(order: seq<string>, ps: seq<Pair>) {
    forall i, j :: 0 <= i < j < |ps| ==> Rank(order, ps[i].0) < Rank(order, ps[j].0)
  }

  /** A line of a note: a field as it is rendered, or anything that is none. */
  datatype Line =
    | Noise(line: string)
    | Field(indent: string, key: string, pad: string, open: string, text: string, close: string, commas: string, tail: string)
  {
    function Render(): string {
      match this
      case Noise(line) => line
      case Field(indent, key, pad, open, text, close, commas, tail) =>
        indent + key + ":" + (pad + Dressed(open, text, close, commas)) + tail
    }

    ghost predicate Readable() {
      match this
      case Noise(line) => KeyOf(line) !in FIELDS
      case Field(indent, key, pad, open, text, close, commas, tail) =>
        && key in FIELDS && All(IsSpace, indent) && All(IsSpace, pad) && All(IsSpace, tail)
        && Plain(open, text, close, commas)
    }
  }

  ghost predicate AllReadable(ls: seq<Line>) {
    forall i :: 0 <= i < |ls| ==> ls[i].Readable()
  }

  function Rendered(ls: seq<Line>): (lines: seq<string>)
    ensures |lines| == |ls| && forall i :: 0 <= i < |ls| ==> lines[i] == ls[i].Render()
  {
    if ls == [] then [] else [ls[0].Render()] + Rendered(ls[1..])
  }

  /** The fields among the lines. */
  function Fields(toInt: string -> int, ls: seq<Line>): seq<Pair>
    requires AllReadable(ls)
  {
    if ls == [] then [] else
    (match ls[0]
     case Noise(_) => []
     case Field(_, key, _, _, text, _, _, _) =>
       assert ls[0].Readable();
       [(FIELDS[key], ValueOf(toInt, FIELDS[key], text))])
      + Fields(toInt, ls[1..])
  }

  lemma {:induction false} LinesRead(toInt: string -> int, ls: seq<Line>)
    requires AllReadable(ls)
    ensures PairsOf(toInt, Rendered(ls)) == Some(Fields(toInt, ls))
  {
    hide FIELDS, KeyOf, ValueText;
    if ls != [] {
      LinesRead(toInt, ls[1..]);
      assert Rendered(ls)[1..] == Rendered(ls[1..]);
      assert ls[0].Readable();
      match ls[0]
      case Noise(line) =>
        assert [] + Fields(toInt, ls[1..]) == Fields(toInt, ls[1..]);
      case Field(indent, key, pad, open, text, close, commas, tail) =>
        RenderedLine(toInt, indent, key, pad, open, text, close, commas, tail);
    }
  }

  /** The scraper's promise on whole notes: records rendered in one key order, the first key in each of
      them, with any other lines in between, come back exactly, each whole under its own name. */
  lemma NoteRoundTrip(toInt: string -> int, order: seq<string>, ls: seq<Line>, rs: seq<seq<Pair>>)
    requires AllReadable(ls) && Records(rs) && DistinctNames(rs) && order != []
    requires forall i :: 0 <= i < |rs| ==> InOrder(order, rs[i]) && HasKey(rs[i], order[0])
    ensures Fields(toInt, ls) == Flat(rs) ==> Parsed(toInt, Rendered(ls)) == Some(Stored(rs))
    ensures forall k :: 0 <= k < |rs| ==> NameOf(rs[k]) in Stored(rs) && Stored(rs)[NameOf(rs[k])] == AsMap(rs[k])
  {
    hide FIELDS;
    LinesRead(toInt, ls);
    ParseRoundTrip(rs);
    forall k | 0 <= k < |rs|
      ensures NameOf(rs[k]) in Stored(rs) && Stored(rs)[NameOf(rs[k])] == AsMap(rs[k])
    {
      StoredUnderOwnName(rs, k);
    }
  }
}

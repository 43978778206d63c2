/** Collapsing a mangled symbol to its qualified name by walking its length-prefixed identifiers, the
    encoding of section 5.1 of the Itanium C++ ABI. */
module MangledNames {
  import opened Wrappers

  predicate IsDigit(c: char) {
    '0' <= c <= '9'
  }

  function DigitValue(c: char): nat
    requires IsDigit(c)
  {
    c as int - '0' as int
  }

  function DigitChar(d: nat): (c: char)
    requires d < 10
    ensures IsDigit(c) && DigitValue(c) == d
  {
    (d + '0' as int) as char
  }

  ghost predicate AllDigits(s: string) {
    forall i :: 0 <= i < |s| ==> IsDigit(s[i])
  }

  /** How many digits s starts with. */
  function DigitSpan(s: string): (n: nat)
    ensures n <= |s| && AllDigits(s[..n]) && (n < |s| ==> !IsDigit(s[n]))
  {
    if s == "" || !IsDigit(s[0]) then 0 else
    var n := 1 + DigitSpan(s[1..]);
    assert forall i :: 1 <= i < n ==> s[i] == s[1..][i - 1];
    n
  }

  function ParseNat(s: string): nat
    requires AllDigits(s)
  {
    if s == "" then 0 else 10 * ParseNat(s[..|s| - 1]) + DigitValue(s[|s| - 1])
  }

  function ToDecimal(n: nat): (s: string)
    ensures s != "" && AllDigits(s)
  {
    if n < 10 then [DigitChar(n)] else ToDecimal(n / 10) + [DigitChar(n % 10)]
  }

  lemma {:induction false} DecimalRoundTrip(n: nat)
    ensures ParseNat(ToDecimal(n)) == n
  {
    var s := ToDecimal(n);
    if n < 10 {
      assert s[..0] == "";
    } else {
      DecimalRoundTrip(n / 10);
      assert s[..|s| - 1] == ToDecimal(n / 10);
    }
  }

  lemma {:induction false} SpanOfDigits(ds: string, rest: string)
    requires AllDigits(ds) && (rest == "" || !IsDigit(rest[0]))
    ensures DigitSpan(ds + rest) == |ds|
  {
    if ds == "" {
      assert ds + rest == rest;
    } else {
      assert (ds + rest)[1..] == ds[1..] + rest;
      SpanOfDigits(ds[1..], rest);
    }
  }

  // ----- the walk -------------------------------------------------------------------------------

  /** A length at the front, past an optional L: the length, and where the identifier starts. */
  function LengthPrefix(rest: string): (r: Option<(nat, nat)>)
    ensures r.Some? ==> 1 <= r.value.1 <= |rest|
  {
    var skip := if rest != "" && rest[0] == 'L' then 1 else 0;
    var n := DigitSpan(rest[skip..]);
    if n == 0 then None else Some((ParseNat(rest[skip..][..n]), skip + n))
  }

  /** A slice as the source takes it: it stops where the text does. */
  function Slice(s: string, from: nat, to: nat): string {
    s[Min(from, |s|)..Min(Max(from, to), |s|)]
  }

  function Walk(rest: string): seq<string>
    decreases |rest|
  {
    match LengthPrefix(rest)
    case None => []
    case Some((n, start)) => [Slice(rest, start, start + n)] + Walk(Slice(rest, start + n, |rest|))
  }

  function Join(sep: string, parts: seq<string>): string {
    if parts == [] then "" else if |parts| == 1 then parts[0] else parts[0] + sep + Join(sep, parts[1..])
  }

  function WithoutPrefix(c: char, s: string): string {
    if s != "" && s[0] == c then s[1..] else s
  }

  /** What the opening pattern captures: everything after _Z, an optional N and an optional L, up to the
      end of the line. A line break anywhere but at the very end defeats the pattern. */
  function Captured(sym: string): Option<string> {
    if !("_Z" <= sym) then None else
    var u := WithoutPrefix('L', WithoutPrefix('N', sym[2..]));
    var v := if u != "" && u[|u| - 1] == '\n' then u[..|u| - 1] else u;
    if '\n' in v then None else Some(v)
  }

  /** What a symbol is reported as. */
  function FamilyOf(sym: string): string {
    match Captured(sym)
    case None => sym
    case Some(body) => if Walk(body) == [] then sym else Join("::", Walk(body))
  }

  lemma WalkEnds(rest: string)
    requires rest == "" || LengthPrefix(rest).None?
    ensures Walk(rest) == []
  {
  }

  lemma WalkNext(rest: string, n: nat, start: nat)
    requires LengthPrefix(rest) == Some((n, start))
    ensures Walk(rest) == [Slice(rest, start, start + n)] + Walk(Slice(rest, start + n, |rest|))
    ensures |Slice(rest, start + n, |rest|)| < |rest|
  {
    hide ParseNat, DigitSpan, LengthPrefix;
  }

  /** The walk as the source loops it: it takes identifiers off the front until none is left. */
  method Family(sym: string) returns (name: string)
    ensures name == FamilyOf(sym)
  {
    hide Walk, LengthPrefix, Captured, Slice, Join;
    var m := Captured(sym);
    if m.None? {
      return sym;
    }
    var rest, parts := m.value, [];
    while rest != ""
      invariant parts + Walk(rest) == Walk(m.value)
      decreases |rest|
    {
      var d := LengthPrefix(rest);
      if d.None? {
        break;
      }
      var (n, start) := d.value;
      WalkNext(rest, n, start);
      parts := parts + [Slice(rest, start, start + n)];
      rest := Slice(rest, start + n, |rest|);
    }
    WalkEnds(rest);
    assert parts == Walk(m.value);
    return if parts == [] then sym else Join("::", parts);
  }

  // ----- round trip -----------------------------------------------------------------------------

  ghost predicate Identifier(id: string) {
    id != "" && !IsDigit(id[0]) && '\n' !in id
  }

  /** A tail no identifier can be read from. */
  ghost predicate Stops(tail: string) {
    LengthPrefix(tail).None?
  }

  lemma StopsIff(tail: string)
    ensures Stops(tail) <==>
      (tail == "" || (!IsDigit(tail[0]) && (tail[0] == 'L' ==> |tail| == 1 || !IsDigit(tail[1]))))
  {
    if tail != "" && tail[0] == 'L' {
      assert |tail| > 1 ==> tail[1..][0] == tail[1];
    } else {
      assert tail[0..] == tail;
    }
  }

  /** An identifier as the mangling writes it; L marks internal linkage. */
  datatype Part = Part(local: bool, id: string)

  function EncodePart(p: Part): string {
    (if p.local then "L" else "") + ToDecimal(|p.id|) + p.id
  }

  function Encode(ps: seq<Part>): string {
    if ps == [] then "" else EncodePart(ps[0]) + Encode(ps[1..])
  }

  function Names(ps: seq<Part>): (ids: seq<string>)
    ensures |ids| == |ps| && forall i :: 0 <= i < |ps| ==> ids[i] == ps[i].id
  {
    if ps == [] then [] else [ps[0].id] + Names(ps[1..])
  }

  ghost predicate Identifiers(ps: seq<Part>) {
    forall i :: 0 <= i < |ps| ==> Identifier(ps[i].id)
  }

  lemma PlainPrefixRead(ds: string, more: string)
    requires ds != "" && AllDigits(ds) && (more == "" || !IsDigit(more[0]))
    ensures LengthPrefix(ds + more) == Some((ParseNat(ds), |ds|))
  {
    hide ParseNat, DigitSpan;
    SpanOfDigits(ds, more);
    assert (ds + more)[0] == ds[0] && (ds + more)[0..] == ds + more && (ds + more)[..|ds|] == ds;
  }

  lemma MarkedPrefixRead(s: string)
    requires s != "" && IsDigit(s[0]) && LengthPrefix(s).Some?
    ensures LengthPrefix("L" + s) == Some((LengthPrefix(s).value.0, LengthPrefix(s).value.1 + 1))
  {
    hide ParseNat, DigitSpan;
    assert ("L" + s)[1..] == s && s[0..] == s;
  }

  /** The number in front is read to its end, past a mark. */
  lemma PrefixRead(mark: string, n: nat, more: string)
    requires mark in ["", "L"] && (more == "" || !IsDigit(more[0]))
    ensures LengthPrefix(mark + (ToDecimal(n) + more)) == Some((n, |mark| + |ToDecimal(n)|))
  {
    hide ParseNat, DigitSpan, LengthPrefix, ToDecimal;
    var ds := ToDecimal(n);
    DecimalRoundTrip(n);
    PlainPrefixRead(ds, more);
    if mark == "L" {
      MarkedPrefixRead(ds + more);
    } else {
      assert mark + (ds + more) == ds + more;
    }
  }

  /** An encoded identifier is read back whole, and the walk goes on right after it. */
  lemma OneIdentifier(p: Part, more: string)
    requires Identifier(p.id)
    ensures Walk(EncodePart(p) + more) == [p.id] + Walk(more)
  {
    hide Walk, ParseNat, ToDecimal, LengthPrefix;
    var mark, ds := if p.local then "L" else "", ToDecimal(|p.id|);
    var rest := EncodePart(p) + more;
    assert rest == mark + (ds + (p.id + more));
    PrefixRead(mark, |p.id|, p.id + more);
    WalkNext(rest, |p.id|, |mark| + |ds|);
    assert Slice(rest, |mark| + |ds|, |mark| + |ds| + |p.id|) == p.id;
    assert Slice(rest, |mark| + |ds| + |p.id|, |rest|) == more;
  }

  lemma {:induction false} WalkInvertsEncode(ps: seq<Part>, tail: string)
    requires Identifiers(ps) && Stops(tail)
    ensures Walk(Encode(ps) + tail) == Names(ps)
  {
    hide Walk, EncodePart, LengthPrefix;
    if ps == [] {
      assert Encode(ps) + tail == tail;
      WalkEnds(tail);
    } else {
      assert Encode(ps) + tail == EncodePart(ps[0]) + (Encode(ps[1..]) + tail);
      OneIdentifier(ps[0], Encode(ps[1..]) + tail);
      WalkInvertsEncode(ps[1..], tail);
    }
  }

  lemma {:induction false} EncodedOnOneLine(ps: seq<Part>)
    requires Identifiers(ps)
    ensures '\n' !in Encode(ps)
  {
    if ps != [] {
      EncodedOnOneLine(ps[1..]);
      assert AllDigits(ToDecimal(|ps[0].id|));
      assert '\n' !in EncodePart(ps[0]);
    }
  }

  lemma PrefixGone(c: char, present: bool, s: string)
    requires s != "" && (!present ==> s[0] != c)
    ensures WithoutPrefix(c, (if present then [c] else "") + s) == s
  {
    assert ([c] + s)[1..] == s && "" + s == s;
  }

  /** The opening pattern strips exactly what the mangling put in front of the first length. */
  lemma CapturedBody(nested: bool, local: bool, body: string)
    requires body != "" && IsDigit(body[0]) && '\n' !in body
    ensures Captured("_Z" + (if nested then "N" else "") + ((if local then "L" else "") + body)) == Some(body)
  {
    hide WithoutPrefix;
    var t := (if local then "L" else "") + body;
    var s := (if nested then "N" else "") + t;
    assert t[0] == (if local then 'L' else body[0]);
    PrefixGone('N', nested, t);
    PrefixGone('L', local, body);
    assert "_Z" + (if nested then "N" else "") + t == "_Z" + s;
  }

  /** The first identifier's L goes with the opening pattern, so the walk sees it without. */
  lemma FirstMark(ps: seq<Part>, tail: string)
    requires Identifiers(ps) && ps != [] && '\n' !in tail
    ensures var body := Encode(ps[0 := ps[0].(local := false)]) + tail;
            && Encode(ps) + tail == (if ps[0].local then "L" else "") + body
            && body != "" && IsDigit(body[0]) && '\n' !in body
  {
    hide ToDecimal;
    var qs := ps[0 := ps[0].(local := false)];
    var ds := ToDecimal(|ps[0].id|);
    assert qs[1..] == ps[1..];
    assert Encode(qs) == ds + ps[0].id + Encode(ps[1..]);
    assert (Encode(qs) + tail)[0] == ds[0];
    assert Encode(ps) + tail == (if ps[0].local then "L" else "") + (Encode(qs) + tail);
    EncodedOnOneLine(qs);
  }

  /** The symbol of a nested name, or of a plain one, collapses to its identifiers joined by "::"; what
      follows them only has to start with neither a digit nor an L and a digit. */
  lemma FamilyInvertsMangling(nested: bool, ps: seq<Part>, tail: string)
    requires ps != [] && Identifiers(ps) && Stops(tail) && '\n' !in tail
    ensures FamilyOf("_Z" + (if nested then "N" else "") + (Encode(ps) + tail)) == Join("::", Names(ps))
  {
    hide Walk, Captured, Join, LengthPrefix, Encode, Names;
    var qs := ps[0 := ps[0].(local := false)];
    FirstMark(ps, tail);
    CapturedBody(nested, ps[0].local, Encode(qs) + tail);
    WalkInvertsEncode(qs, tail);
    assert Names(qs) == Names(ps);
  }

  /** A length that promises more than is left takes what there is, and ends the walk. */
  lemma TruncatedIdentifier(n: nat, id: string)
    requires |id| <= n && (id == "" || !IsDigit(id[0]))
    ensures Walk(ToDecimal(n) + id) == [id]
  {
    hide Walk, ParseNat, ToDecimal, LengthPrefix;
    var ds := ToDecimal(n);
    PrefixRead("", n, id);
    assert "" + (ds + id) == ds + id;
    WalkNext(ds + id, n, |ds|);
    assert Slice(ds + id, |ds|, |ds| + n) == id;
    assert Slice(ds + id, |ds| + n, |ds + id|) == "";
    WalkEnds("");
  }

  /** A symbol is reported as it is when it is not mangled, spans lines, or names nothing. */
  lemma StaysAsItIs(sym: string)
    requires !("_Z" <= sym) || (exists i :: 0 <= i < |sym| - 1 && sym[i] == '\n') || Captured(sym) == Some("")
    ensures FamilyOf(sym) == sym
  {
    hide Walk, Join;
    WalkEnds("");
    if "_Z" <= sym {
      var u := WithoutPrefix('L', WithoutPrefix('N', sym[2..]));
      var gone := |sym| - |u|;
      assert gone <= 4 && u == sym[gone..] && forall i :: 0 <= i < gone ==> sym[i] != '\n';
      if i :| 0 <= i < |sym| - 1 && sym[i] == '\n' {
        assert u[i - gone] == '\n';
        var v := if u != "" && u[|u| - 1] == '\n' then u[..|u| - 1] else u;
        assert v[i - gone] == '\n';
      }
    }
  }

  /** The parts of a joined name, from the left. */
  lemma {:induction false} JoinedOneMore(sep: string, parts: seq<string>, last: string)
    ensures Join(sep, [last]) == last
    ensures parts != [] ==> Join(sep, parts + [last]) == Join(sep, parts) + sep + last
  {
    if |parts| == 1 {
      assert (parts + [last])[1..] == [last];
    } else if |parts| > 1 {
      assert (parts + [last])[1..] == parts[1..] + [last];
      JoinedOneMore(sep, parts[1..], last);
      assert parts[0] + sep + (Join(sep, parts[1..]) + sep + last) == (parts[0] + sep + Join(sep, parts[1..])) + sep + last;
    }
  }
}

/** Stripping and splitting, as the parsers use them. */
module Strings {

  function StripLeft(p: char -> bool, s: string): (r: string)
    ensures |r| <= |s| && r == s[|s| - |r|..]
  {
    if s != "" && p(s[0]) then StripLeft(p, s[1..]) else s
  }

  function StripRight(p: char -> bool, s: string): (r: string)
    ensures |r| <= |s| && r == s[..|r|]
  {
    if s != "" && p(s[|s| - 1]) then StripRight(p, s[..|s| - 1]) else s
  }

  function Strip(p: char -> bool, s: string): string {
    StripRight(p, StripLeft(p, s))
  }

  ghost predicate All(p: char -> bool, s: string) {
    forall i :: 0 <= i < |s| ==> p(s[i])
  }

  /** s neither starts nor ends with a character to strip. */
  ghost predicate Trimmed(p: char -> bool, s: string) {
    s != "" ==> !p(s[0]) && !p(s[|s| - 1])
  }

  lemma {:induction false} StripLeftPad(p: char -> bool, pad: string, s: string)
    requires All(p, pad) && (s == "" || !p(s[0]))
    ensures StripLeft(p, pad + s) == s
  {
    if pad != "" {
      assert (pad + s)[1..] == pad[1..] + s;
      StripLeftPad(p, pad[1..], s);
    } else {
      assert pad + s == s;
    }
  }

  lemma {:induction false} StripRightPad(p: char -> bool, s: string, pad: string)
    requires All(p, pad) && (s == "" || !p(s[|s| - 1]))
    ensures StripRight(p, s + pad) == s
  {
    if pad != "" {
      assert (s + pad)[..|s + pad| - 1] == s + pad[..|pad| - 1];
      StripRightPad(p, s, pad[..|pad| - 1]);
    } else {
      assert s + pad == s;
    }
  }

  lemma StripPadded(p: char -> bool, left: string, s: string, right: string)
    requires All(p, left) && All(p, right) && Trimmed(p, s) && s != ""
    ensures Strip(p, left + s + right) == s
  {
    assert left + s + right == left + (s + right);
    StripLeftPad(p, left, s + right);
    StripRightPad(p, s, right);
  }

  /** The index of the first c, or the length when there is none. */
  function Find(c: char, s: string): (i: nat)
    ensures i <= |s| && (i < |s| ==> s[i] == c) && forall j :: 0 <= j < i ==> s[j] != c
  {
    if s == "" || s[0] == c then 0 else 1 + Find(c, s[1..])
  }

  lemma FindIs(c: char, s: string, i: nat)
    requires i < |s| && s[i] == c && forall j :: 0 <= j < i ==> s[j] != c
    ensures Find(c, s) == i
  {
  }
}

/** Sizes that double: how many levels, or bits, a size takes. */
module PowersOfTwo {

  function TwoTo(bits: nat): (k: nat)
    ensures k >= 1
  {
    if bits == 0 then 1 else 2 * TwoTo(bits - 1)
  }

  lemma {:induction false} TwoToMonotone(a: nat, b: nat)
    requires a <= b
    ensures TwoTo(a) <= TwoTo(b) && (a < b ==> TwoTo(a) < TwoTo(b))
  {
    if a < b {
      TwoToMonotone(a, b - 1);
    }
  }

  /** The fewest doublings of 1 that reach n. */
  function Doublings(n: nat): (k: nat)
    requires n >= 1
    ensures n <= TwoTo(k) && (k > 0 ==> TwoTo(k - 1) < n)
  {
    if n == 1 then 0 else 1 + Doublings((n + 1) / 2)
  }

  lemma DoublingsUnique(n: nat, k: nat)
    requires n >= 1 && n <= TwoTo(k) && (k > 0 ==> TwoTo(k - 1) < n)
    ensures k == Doublings(n)
  {
    var d := Doublings(n);
    if d < k {
      TwoToMonotone(d, k - 1);
    } else if k < d {
      TwoToMonotone(k, d - 1);
    }
  }

  ghost predicate IsPowerOfTwo(n: nat) {
    exists p: nat :: TwoTo(p) == n
  }

  lemma PowerOfTwoIff(n: nat)
    requires n >= 1
    ensures IsPowerOfTwo(n) <==> TwoTo(Doublings(n)) == n
  {
    if p: nat :| TwoTo(p) == n {
      if p > 0 {
        TwoToMonotone(p - 1, p);
      }
      DoublingsUnique(n, p);
    }
  }
}

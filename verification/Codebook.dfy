/** Rounding to a nearest codeword: the argmin over absolute distances both quantizers share. */
module Codebook {
  import opened RealArithmetic

  /** Index i is an argmin of the distance to y; a tie may go either way. */
  ghost predicate IsNearest(book: seq<real>, y: real, i: nat) {
    i < |book| && forall j :: 0 <= j < |book| ==> Abs(y - book[i]) <= Abs(y - book[j])
  }

  function NearestIndex(book: seq<real>, y: real): (i: nat)
    requires book != []
    ensures IsNearest(book, y, i)
  {
    if |book| == 1 then 0 else
    var rest := book[1..];
    var k := NearestIndex(rest, y);
    assert forall j :: 1 <= j < |book| ==> book[j] == rest[j - 1];
    if Abs(y - book[0]) <= Abs(y - rest[k]) then 0 else k + 1
  }

  function Nearest(book: seq<real>, y: real): real
    requires book != []
  {
    book[NearestIndex(book, y)]
  }
}

/** Where a position goes in a circular buffer of R columns. */
module RingColumns {

  function Column(p: int, R: nat): (c: nat)
    requires R > 0
    ensures c < R
  {
    p % R
  }

  lemma MultipleMagnitude(R: int, d: int)
    requires R > 0 && d != 0
    ensures R * d >= R || R * d <= -R
  {
    if d >= 1 {
      assert R * d >= R * 1;
    } else {
      assert R * d <= R * -1;
    }
  }

  /** Positions less than R apart share a column only when they are equal. */
  lemma ColumnsDiffer(p: int, q: int, R: nat)
    requires R > 0 && Column(p, R) == Column(q, R) && p - q < R && q - p < R
    ensures p == q
  {
    var a: int, b: int := p / R, q / R;
    assert p == R * a + Column(p, R);
    assert q == R * b + Column(q, R);
    assert p - q == R * (a - b);
    if a != b {
      MultipleMagnitude(R, a - b);
    }
  }

  lemma ColumnIs(p: int, a: int, r: nat, R: nat)
    requires R > 0 && r < R && p == R * a + r
    ensures Column(p, R) == r
  {
    var b: int := p / R;
    assert p == R * b + p % R;
    assert R * (a - b) == p % R - r;
    if a != b {
      MultipleMagnitude(R, a - b);
    }
  }

  lemma ColumnOfNext(p: int, R: nat)
    requires R > 0
    ensures Column(p + R, R) == Column(p, R)
  {
    var a: int := p / R;
    assert p == R * a + p % R;
    assert R * (a + 1) == R * a + R;
    ColumnIs(p + R, a + 1, p % R, R);
  }

  /** The columns of a run of positions that does not wrap. */
  lemma ColumnInRun(p0: int, p: int, R: nat)
    requires R > 0 && p0 <= p && Column(p0, R) + (p - p0) < R
    ensures Column(p, R) == Column(p0, R) + (p - p0)
  {
    var a: int := p0 / R;
    assert p0 == R * a + p0 % R;
    ColumnIs(p, a, Column(p0, R) + (p - p0), R);
  }

  lemma ColumnAfterWrap(p: int, R: nat)
    requires R > 0
    ensures Column(p + (R - Column(p, R)), R) == 0
  {
    var a: int := p / R;
    assert p == R * a + p % R;
    assert R * (a + 1) == R * a + R;
    ColumnIs(p + (R - Column(p, R)), a + 1, 0, R);
  }
}

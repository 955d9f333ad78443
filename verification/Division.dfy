/** Division with remainder by a positive number, where the factors are variables. */
module Division {

  /** A non-zero multiple of `m` is at least `m` away from zero. */
  lemma Multiple(d: int, m: int)
    requires 0 < m
    ensures d >= 1 ==> d * m >= m
    ensures d <= -1 ==> d * m <= -m
  {
    if d >= 1 { assert (d - 1) * m >= 0; }
    if d <= -1 { assert (-1 - d) * m >= 0; }
  }

  lemma Remainder(q: nat, m: nat, r: nat)
    requires r < m
    ensures (q * m + r) % m == r
  {
    var x := q * m + r;
    var d := x / m - q;
    assert d * m == r - x % m;
    Multiple(d, m);
  }
}

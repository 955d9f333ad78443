/** The lifetime counters of a shard, and of a cache: the sums over its shards. */
module Counters {

  datatype Stats = Stats(hits: nat, misses: nat, insertions: nat, evictions: nat)

  const NOTHING := Stats(0, 0, 0, 0)

  function Plus(a: Stats, b: Stats): Stats {
    Stats(a.hits + b.hits, a.misses + b.misses, a.insertions + b.insertions, a.evictions + b.evictions)
  }

  function Sum(row: seq<Stats>): Stats {
    if row == [] then NOTHING else Plus(Sum(row[..|row| - 1]), row[|row| - 1])
  }

  /** One shard's counters grow by `d`, and so does the sum. */
  lemma {:induction false} SumOneMore(row: seq<Stats>, i: nat, d: Stats)
    requires i < |row|
    ensures Sum(row[i := Plus(row[i], d)]) == Plus(Sum(row), d)
  {
    var n := |row| - 1;
    var more := row[i := Plus(row[i], d)];
    if i < n {
      assert more[..n] == row[..n][i := Plus(row[i], d)];
      SumOneMore(row[..n], i, d);
    } else {
      assert more[..n] == row[..n];
    }
  }

  lemma SumSnoc(row: seq<Stats>, s: Stats)
    ensures Sum(row + [s]) == Plus(Sum(row), s) && Sum([]) == NOTHING
  {
    assert (row + [s])[..|row|] == row;
  }

  lemma PlusNothing(s: Stats)
    ensures Plus(s, NOTHING) == s
  {
  }

  lemma NothingPlus(s: Stats)
    ensures Plus(NOTHING, s) == s
  {
  }

  lemma PlusTwice(a: Stats, b: Stats, d: Stats)
    ensures Plus(Plus(a, b), d) == Plus(a, Plus(b, d))
  {
  }

  function Nothings(n: nat): (r: seq<Stats>)
    ensures |r| == n
  {
    if n == 0 then [] else Nothings(n - 1) + [NOTHING]
  }

  lemma {:induction false} SumOfNothing(n: nat)
    ensures Sum(Nothings(n)) == NOTHING
  {
    hide Sum, Plus;
    SumSnoc([], NOTHING);
    if n > 0 {
      SumOfNothing(n - 1);
      PlusNothing(Sum(Nothings(n - 1)));
      SumSnoc(Nothings(n - 1), NOTHING);
    }
  }

  lemma {:induction false} NothingsAt(n: nat, i: nat)
    requires i < n
    ensures Nothings(n)[i] == NOTHING
  {
    if i < n - 1 { NothingsAt(n - 1, i); }
  }
}

/** Finite sets of naturals, and the pigeonhole principle for arena ids. */
module Counting {

  /** The naturals below `n`. */
  ghost function UpTo(n: nat): (s: set<nat>)
    ensures |s| == n
    ensures forall x: nat :: x in s <==> x < n
  {
    if n == 0 then {} else UpTo(n - 1) + {n - 1}
  }

  ghost function Elements<T>(s: seq<T>): set<T> {
    set x | x in s
  }

  lemma Subset<T>(a: set<T>, b: set<T>)
    requires a <= b
    ensures |a| <= |b|
    ensures |a| == |b| ==> a == b
  {
    assert b == a + (b - a);
  }

  lemma {:induction false} DistinctCount<T>(s: seq<T>)
    requires forall i, j | 0 <= i < j < |s| :: s[i] != s[j]
    ensures |Elements(s)| == |s|
  {
    if s != [] {
      DistinctCount(s[1..]);
      assert Elements(s) == {s[0]} + Elements(s[1..]);
    }
  }

  /** Distinct naturals below `n`, `n` of them, are all the naturals below `n`. */
  lemma Pigeonhole(ids: seq<nat>)
    requires forall i | 0 <= i < |ids| :: ids[i] < |ids|
    requires forall i, j | 0 <= i < j < |ids| :: ids[i] != ids[j]
    ensures Elements(ids) == UpTo(|ids|)
  {
    DistinctCount(ids);
    Subset(Elements(ids), UpTo(|ids|));
  }

  /** Sets of one size have differences of one size. */
  lemma SameDifference<T>(a: set<T>, b: set<T>)
    requires |a| == |b|
    ensures |a - b| == |b - a|
  {
    assert a == (a - b) + (a * b) && b == (b - a) + (a * b);
  }
}

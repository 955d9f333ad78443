/**
 A tag array with holes: `live` lists the positions of the live tags from oldest to
 newest. How ranks (how many live tags lie below a position) relate positions to the
 queue.
 */
module Positions {
  import opened Tags
  import opened Sieve
  import opened Links

  ghost predicate Increasing(live: seq<nat>) {
    forall i, j | 0 <= i < j < |live| :: live[i] < live[j]
  }

  ghost predicate Within(live: seq<nat>, n: nat) {
    forall i | 0 <= i < |live| :: live[i] < n
  }

  /** The live tags lie below `tail`, oldest first, and there are no other tags. */
  ghost predicate Placed(tags: seq<bv16>, live: seq<nat>, tail: nat) {
    tail <= |tags| && Increasing(live) && Within(live, tail) && Within(live, |tags|) && HolesAreEmpty(tags, live)
  }

  /** `k` live positions lie below `p`. */
  ghost predicate RankIs(live: seq<nat>, p: nat, k: nat) {
    k <= |live| && forall i | 0 <= i < |live| :: live[i] < p <==> i < k
  }

  /** The live tags, closed up. */
  ghost function Row(tags: seq<bv16>, live: seq<nat>): (row: seq<bv16>)
    requires Within(live, |tags|)
    ensures |row| == |live| && forall i | 0 <= i < |live| :: row[i] == tags[live[i]]
  {
    seq(|live|, i requires 0 <= i < |live| => tags[live[i]])
  }

  ghost predicate HolesAreEmpty(tags: seq<bv16>, live: seq<nat>) {
    forall p | 0 <= p < |tags| && p !in live :: tags[p] == EMPTY
  }

  /** The flags of the live positions, in order. */
  ghost predicate FlagsAt(vis: seq<bool>, live: seq<nat>, flags: seq<bool>) {
    && Within(live, |vis|) && |flags| == |live|
    && forall i | 0 <= i < |live| :: vis[live[i]] == flags[i]
  }

  lemma RankStep(live: seq<nat>, p: nat, k: nat)
    requires Increasing(live) && RankIs(live, p, k)
    ensures if k < |live| && live[k] == p then RankIs(live, p + 1, k + 1)
            else RankIs(live, p + 1, k) && p !in live
  {
  }

  lemma RankZero(live: seq<nat>)
    ensures RankIs(live, 0, 0)
  {
  }

  lemma RankAll(live: seq<nat>, n: nat)
    requires Within(live, n)
    ensures RankIs(live, n, |live|)
  {
  }

  lemma RankUnique(live: seq<nat>, p: nat, j: nat, k: nat)
    requires RankIs(live, p, j) && RankIs(live, p, k)
    ensures j == k
  {
    var a := if j < |live| then live[j] else 0;
    var b := if k < |live| then live[k] else 0;
  }

  /** Every position has a rank. */
  lemma {:induction false} RankOf(live: seq<nat>, p: nat) returns (k: nat)
    requires Increasing(live)
    ensures RankIs(live, p, k)
  {
    if p == 0 {
      k := 0;
    } else {
      k := RankOf(live, p - 1);
      RankStep(live, p - 1, k);
      if k < |live| && live[k] == p - 1 { k := k + 1; }
    }
  }

  lemma FlagsSet(vis: seq<bool>, live: seq<nat>, flags: seq<bool>, k: nat, b: bool)
    requires FlagsAt(vis, live, flags) && Increasing(live) && k < |live|
    ensures FlagsAt(vis[live[k] := b], live, flags[k := b])
  {
  }

  /** One live position goes: the others keep their order, their tags and their flags. */
  lemma RemovePosition(tags: seq<bv16>, live: seq<nat>, tail: nat, v: nat)
    requires Placed(tags, live, tail) && v < |live|
    ensures var pos := live[v];
      && pos < tail
      && Placed(tags[pos := EMPTY], Without(live, v), tail)
      && Row(tags[pos := EMPTY], Without(live, v)) == Without(Row(tags, live), v)
      && RankIs(Without(live, v), pos + 1, v)
  {
    var live', pos := Without(live, v), live[v];
    forall p | 0 <= p < |tags| && p !in live' ensures tags[pos := EMPTY][p] == EMPTY {
      WithoutElement(live, v, p);
    }
  }

  lemma RemoveFlag(vis: seq<bool>, live: seq<nat>, flags: seq<bool>, v: nat)
    requires Increasing(live) && FlagsAt(vis, live, flags) && v < |live|
    ensures FlagsAt(vis[live[v] := false], Without(live, v), Without(flags, v))
  {
  }

  /** A new tag past all the others. */
  lemma AppendPosition(tags: seq<bv16>, live: seq<nat>, tail: nat, tag: bv16)
    requires Placed(tags, live, tail) && tail < |tags|
    ensures var live' := live + [tail];
      && Placed(tags[tail := tag], live', tail + 1)
      && Row(tags[tail := tag], live') == Row(tags, live) + [tag]
  {
    var live' := live + [tail];
    forall p | 0 <= p < |tags| && p !in live' ensures tags[tail := tag][p] == EMPTY {
      assert p !in live;
    }
  }

  lemma AppendFlagAt(vis: seq<bool>, live: seq<nat>, flags: seq<bool>, tail: nat)
    requires FlagsAt(vis, live, flags) && Within(live, tail) && tail < |vis|
    ensures FlagsAt(vis[tail := false], live + [tail], flags + [false])
  {
  }

  lemma AppendRank(live: seq<nat>, tail: nat, hand: nat, k: nat)
    requires Within(live, tail) && RankIs(live, hand, k) && hand <= tail
    ensures RankIs(live + [tail], hand, k)
  {
  }

  lemma ReadFlag(vis: seq<bool>, live: seq<nat>, flags: seq<bool>, k: nat)
    requires FlagsAt(vis, live, flags) && k < |live|
    ensures live[k] < |vis| && vis[live[k]] == flags[k]
  {
  }

  /** A live position below `hi` has a rank below that of `hi`. */
  lemma RankBelow(live: seq<nat>, p: nat, k: nat, hi: nat, b: nat)
    requires k < |live| && live[k] == p < hi && RankIs(live, hi, b)
    ensures k < b
  {
  }

  /** Positions with no holes. */
  ghost function Closed(n: nat): (live: seq<nat>)
    ensures |live| == n && forall i | 0 <= i < n :: live[i] == i
  {
    seq(n, i requires 0 <= i < n => i)
  }

  lemma ClosedRow(tags: seq<bv16>, row: seq<bv16>)
    requires |row| <= |tags|
    requires forall j | 0 <= j < |row| :: tags[j] == row[j]
    requires forall j | |row| <= j < |tags| :: tags[j] == EMPTY
    ensures Placed(tags, Closed(|row|), |row|) && Row(tags, Closed(|row|)) == row
  {
    forall p | 0 <= p < |row| ensures p in Closed(|row|) { assert Closed(|row|)[p] == p; }
  }

  lemma ClosedRank(n: nat, h: nat)
    requires h <= n
    ensures RankIs(Closed(n), h, h)
  {
  }

  /** Halfway through closing up: `write` tags done, EMPTY up to `p`, the rest as before. */
  ghost predicate Closing(live: seq<nat>, tags0: seq<bv16>, vis0: seq<bool>, flags: seq<bool>,
                          tags: seq<bv16>, vis: seq<bool>, p: nat, write: nat) {
    && |tags0| == |tags| <= |vis| == |vis0| && Within(live, |tags0|) && |flags| == |live|
    && write <= p <= |tags| && write <= |live|
    && (forall j | 0 <= j < write :: tags[j] == tags0[live[j]] && vis[j] == flags[j])
    && (forall j | write <= j < p :: tags[j] == EMPTY)
    && (forall j | p <= j < |tags| :: tags[j] == tags0[j] && vis[j] == vis0[j])
  }

  lemma CloseStep(live: seq<nat>, tags0: seq<bv16>, vis0: seq<bool>, flags: seq<bool>,
                  tags: seq<bv16>, vis: seq<bool>, p: nat, write: nat)
    requires Closing(live, tags0, vis0, flags, tags, vis, p, write) && p < |tags|
    requires write < |live| && live[write] == p && FlagsAt(vis0, live, flags)
    ensures var tags' := if write != p then tags[write := tags[p]][p := EMPTY] else tags;
      var vis' := if write != p then vis[p := false][write := vis[p]] else vis;
      Closing(live, tags0, vis0, flags, tags', vis', p + 1, write + 1)
  {
  }

  lemma CloseStart(live: seq<nat>, tags: seq<bv16>, vis: seq<bool>, flags: seq<bool>)
    requires |tags| <= |vis| && Within(live, |tags|) && |flags| == |live|
    ensures Closing(live, tags, vis, flags, tags, vis, 0, 0)
  {
  }

  /** The next tag is still as it was, and a hole stays a hole. */
  lemma CloseRead(live: seq<nat>, tags0: seq<bv16>, vis0: seq<bool>, flags: seq<bool>,
                  tags: seq<bv16>, vis: seq<bool>, p: nat, write: nat)
    requires Closing(live, tags0, vis0, flags, tags, vis, p, write) && p < |tags|
    ensures write <= p && |tags0| == |tags| <= |vis| && tags[p] == tags0[p]
    ensures tags[p] == EMPTY ==> Closing(live, tags0, vis0, flags, tags, vis, p + 1, write)
  {
  }

  lemma CloseEnd(live: seq<nat>, tags0: seq<bv16>, vis0: seq<bool>, flags: seq<bool>,
                 tags: seq<bv16>, vis: seq<bool>)
    requires Closing(live, tags0, vis0, flags, tags, vis, |tags|, |live|)
    ensures |flags| == |live| <= |tags| == |tags0| <= |vis| && Within(live, |tags0|)
    ensures forall j | 0 <= j < |live| :: tags[j] == tags0[live[j]] && vis[j] == flags[j]
  {
  }
}

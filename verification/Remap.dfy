/**
 Where the arena ids go when entries leave a shard: a removal hands the freed id to the
 owner of the largest one, a retain pairs the ids that are now too large with the free
 ones, lowest with lowest. And when the ids still run in order afterwards.
 */
module Remap {
  import opened Tags
  import opened Sieve
  import opened Links
  import opened Counting

  /** The ids run 0, 1, 2, ... from the oldest entry to the newest. */
  ghost predicate InOrder(ids: seq<nat>) {
    forall i | 0 <= i < |ids| :: ids[i] == i
  }

  // ---- insert ----

  /** Where a row of ids goes on an insert: nowhere, to the next id, or the victim's to the end. */
  ghost function NextIds<K, V>(q: Queue<K, V>, capacity: nat, key: K, ids: seq<nat>): seq<nat>
    requires Valid(q) && 0 < capacity && |q.items| <= capacity && |ids| == |q.items|
  {
    if Has(q, key) then ids
    else if |q.items| < capacity then ids + [|ids|]
    else
      var v := Swept(q).0;
      Without(ids, v) + [ids[v]]
  }

  /**
   Ids in order stay in order through an insert unless it evicts an entry that is not the
   newest: warm-up and updates never disturb them, and a sweep does with the first entry
   it takes from anywhere else.
   */
  lemma OrderAfterInsert<K, V>(q: Queue<K, V>, capacity: nat, key: K, ids: seq<nat>)
    requires Valid(q) && 0 < capacity && |q.items| <= capacity && |ids| == |q.items| && InOrder(ids)
    ensures InOrder(NextIds(q, capacity, key, ids)) <==>
            Has(q, key) || |q.items| < capacity || Swept(q).0 == capacity - 1
  {
    hide Sweep, IndexOf;
    if !Has(q, key) && |q.items| == capacity {
      var v := Swept(q).0;
      if v < capacity - 1 { assert NextIds(q, capacity, key, ids)[v] == ids[v + 1]; }
    }
  }

  // ---- remove ----

  /** The owner of id `from`, if there is one, gets the id `to`. */
  ghost function Renamed(ids: seq<nat>, from: nat, to: nat): (r: seq<nat>)
    ensures |r| == |ids|
  {
    seq(|ids|, i requires 0 <= i < |ids| => if ids[i] == from then to else ids[i])
  }

  /** The ids after the removal of the entry at `pos`. */
  ghost function RemovedIds(ids: seq<nat>, pos: nat): (r: seq<nat>)
    requires pos < |ids|
    ensures |r| == |ids| - 1
  {
    Renamed(Without(ids, pos), |ids| - 1, ids[pos])
  }

  /** The ids after a call that removes `key`, if it is there. */
  ghost function IdsWithout<K, V>(items: seq<Item<K, V>>, key: K, ids: seq<nat>): seq<nat>
    requires |ids| == |items|
  {
    var pos := IndexOf(items, key);
    if pos < |ids| then RemovedIds(ids, pos) else ids
  }

  /** Ids in order stay so exactly when the newest entry or the one before it is removed. */
  lemma OrderAfterRemove(ids: seq<nat>, pos: nat)
    requires pos < |ids| && InOrder(ids)
    ensures InOrder(RemovedIds(ids, pos)) <==> |ids| <= pos + 2
  {
    if pos + 2 < |ids| { assert RemovedIds(ids, pos)[pos] == pos + 1; }
  }

  // ---- retain: the ids that survive ----

  /** The ids of the entries the closure keeps. */
  ghost function KeptIds<K, V>(items: seq<Item<K, V>>, ids: seq<nat>, calls: nat, f: Closure<K, V>): (r: seq<nat>)
    requires |ids| == |items|
    ensures |r| <= |ids|
  {
    if items == [] then []
    else
      match f(calls, items[0].key, items[0].value)
      case Keep(_) => [ids[0]] + KeptIds(items[1..], ids[1..], calls + 1, f)
      case Discard(_) => KeptIds(items[1..], ids[1..], calls + 1, f)
      case Abort(_) => []
  }

  /** During the pass: the ids of the survivors so far, and of those among the unread tags. */
  ghost function IdsInPass<K, V>(
    l: Layout, front: seq<bv16>, back: seq<bv16>, items: seq<Item<K, V>>, calls: nat, f: Closure<K, V>): seq<nat>
    requires ValidLayout(l) && |back| == |items|
  {
    Ids(l, front) + KeptIds(items, Ids(l, back), calls, f)
  }

  /** In the end the row will have the ids `kept`. */
  ghost predicate LeavesIds<K, V>(
    l: Layout, front: seq<bv16>, back: seq<bv16>, items: seq<Item<K, V>>, calls: nat, f: Closure<K, V>, kept: seq<nat>)
  {
    ValidLayout(l) && |back| == |items| && IdsInPass(l, front, back, items, calls, f) == kept
  }

  /** The next tag stays in the row if its entry is kept, and leaves it otherwise. */
  lemma NextTag<K, V>(
    l: Layout, front: seq<bv16>, back: seq<bv16>, items: seq<Item<K, V>>, calls: nat, f: Closure<K, V>, kept: seq<nat>)
    requires LeavesIds(l, front, back, items, calls, f, kept) && |items| > 0
    ensures |back| == |items|
    ensures var verdict := f(calls, items[0].key, items[0].value);
      && (verdict.Keep? ==> LeavesIds(l, front + [back[0]], back[1..], items[1..], calls + 1, f, kept))
      && (verdict.Discard? ==> LeavesIds(l, front, back[1..], items[1..], calls + 1, f, kept))
  {
    hide IdOf;
    assert Ids(l, back)[1..] == Ids(l, back[1..]);
    assert Ids(l, front + [back[0]]) == Ids(l, front) + [Ids(l, back)[0]];
  }

  lemma FirstTag<K, V>(l: Layout, row: seq<bv16>, items: seq<Item<K, V>>, f: Closure<K, V>)
    requires ValidLayout(l) && |row| == |items|
    ensures LeavesIds(l, [], row, items, 0, f, KeptIds(items, Ids(l, row), 0, f))
  {
    hide IdOf;
    assert Ids(l, []) == [];
  }

  lemma NoTagLeft<K, V>(l: Layout, row: seq<bv16>, calls: nat, f: Closure<K, V>, kept: seq<nat>)
    requires LeavesIds(l, row, [], [], calls, f, kept)
    ensures ValidLayout(l) && Ids(l, row) == kept
  {
  }

  ghost predicate Ascending(ids: seq<nat>) {
    forall i, j | 0 <= i < j < |ids| :: ids[i] < ids[j]
  }

  /** Of ids in order the survivors are still ascending. */
  lemma {:induction false} KeptAscend<K, V>(items: seq<Item<K, V>>, ids: seq<nat>, calls: nat, f: Closure<K, V>)
    requires |ids| == |items| && Ascending(ids)
    ensures var kept := KeptIds(items, ids, calls, f);
      Ascending(kept) && forall i | 0 <= i < |kept| :: ids[0] <= kept[i]
  {
    if items != [] { KeptAscend(items[1..], ids[1..], calls + 1, f); }
  }

  // ---- retain: the ids paired ----

  /**
   Ids below the length stay; those at or above it go to ones that were free, the lowest
   to the lowest.
   */
  ghost predicate Remaps(ids: seq<nat>, ids': seq<nat>) {
    var n := |ids|;
    && |ids'| == n && Distinct(ids')
    && (forall i | 0 <= i < n && ids[i] < n :: ids'[i] == ids[i])
    && (forall i | 0 <= i < n && n <= ids[i] :: ids'[i] < n && ids'[i] !in ids)
    && forall i, j | 0 <= i < n && 0 <= j < n && n <= ids[i] < ids[j] :: ids'[i] < ids'[j]
  }

  /** Some of the high ids have been paired. */
  ghost predicate Partly(ids: seq<nat>, now: seq<nat>) {
    var n := |ids|;
    && |now| == n && Distinct(now)
    && (forall i | 0 <= i < n && ids[i] < n :: now[i] == ids[i])
    && (forall i | 0 <= i < n && n <= ids[i] :: now[i] == ids[i] || (now[i] < n && now[i] !in ids))
    && (forall i, j | 0 <= i < n && 0 <= j < n && now[i] < n <= ids[i] && n <= now[j] :: ids[i] < ids[j])
    && (forall i, y: nat | 0 <= i < n && now[i] < n <= ids[i] && y < n && y !in now :: now[i] < y)
    && forall i, j | 0 <= i < n && 0 <= j < n && n <= ids[i] < ids[j] && now[i] < n && now[j] < n :: now[i] < now[j]
  }

  /** The position `i` of the lowest high id, and the lowest free one. */
  ghost predicate LowestPair(now: seq<nat>, i: nat, free: nat) {
    var n := |now|;
    && i < n && n <= now[i] && (forall j | 0 <= j < n && n <= now[j] :: now[i] <= now[j])
    && free < n && free !in now && forall y: nat | y < n && y !in now :: free <= y
  }

  lemma PairedPartly(ids: seq<nat>, now: seq<nat>, i: nat, free: nat)
    requires Partly(ids, now) && LowestPair(now, i, free)
    ensures Partly(ids, now[i := free])
  {
    var n, next := |ids|, now[i := free];
    forall x ensures x in next <==> x == free || (x in now && x != now[i]) { UpdateElement(now, i, free, x); }
    forall k | 0 <= k < n ensures ids[k] != free { assert now[k] in now; }
    assert next[i] == free;
  }

  lemma AllPaired(ids: seq<nat>, now: seq<nat>)
    requires Partly(ids, now) && forall i | 0 <= i < |now| :: now[i] < |now|
    ensures Remaps(ids, now)
  {
  }

  lemma NonePaired(ids: seq<nat>)
    requires Distinct(ids)
    ensures Partly(ids, ids)
  {
  }

  /**
   After a retain the ids of a shard in order run in order exactly when no survivor with
   an id below the new length has moved up the row.
   */
  lemma OrderAfterRetain(kept: seq<nat>, ids: seq<nat>)
    requires Ascending(kept) && Remaps(kept, ids)
    ensures InOrder(ids) <==> forall i | 0 <= i < |kept| :: kept[i] == i || |kept| <= kept[i]
  {
    if forall i | 0 <= i < |kept| :: kept[i] == i || |kept| <= kept[i] {
      forall i | 0 <= i < |kept| ensures ids[i] == i {
        NotBelow(kept, ids, i);
        NotAbove(kept, ids, i);
      }
    }
  }

  lemma PrefixIsIn(kept: seq<nat>, i: nat, x: nat)
    requires i <= |kept| && Ascending(kept)
    ensures x < i && (forall j | 0 <= j < i :: kept[j] == j) ==> x in kept
  {
    if x < i { assert kept[x] in kept; }
  }

  lemma {:induction false} NotBelow(kept: seq<nat>, ids: seq<nat>, i: nat)
    requires Ascending(kept) && Remaps(kept, ids) && i < |kept|
    requires forall j | 0 <= j < |kept| :: kept[j] == j || |kept| <= kept[j]
    ensures i <= ids[i]
  {
    if i > 0 && |kept| <= kept[i] {
      NotBelow(kept, ids, i - 1);
      PrefixIsIn(kept, i, ids[i]);
    }
  }

  lemma {:induction false} NotAbove(kept: seq<nat>, ids: seq<nat>, i: nat)
    requires Ascending(kept) && Remaps(kept, ids) && i < |kept|
    requires forall j | 0 <= j < |kept| :: kept[j] == j || |kept| <= kept[j]
    ensures ids[i] <= i
    decreases |kept| - i
  {
    if |kept| <= kept[i] && i + 1 < |kept| { NotAbove(kept, ids, i + 1); }
  }
}

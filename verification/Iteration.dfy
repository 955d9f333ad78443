/**
 Walking a cache: `Iter` goes shard by shard and oldest first within a shard; `Drain`
 empties the cache at once and then hands out what it held, by arena id.
 */
module Iteration {
  import opened Tags
  import opened Sieve
  import opened Links
  import opened Counting
  import opened Sharded
  import opened Sharding
  import opened Remap
  import Dense = Shard
  import C = Cache

  // ---- what is left of a row ----

  /** The entries an iterator at shard `i`, slot `j` has still to yield. */
  function RestOf<K, V>(qs: Row<K, V>, i: nat, j: nat): seq<Entry<K, V>> {
    if i >= |qs| then []
    else if j >= |qs[i].items| then Flat(qs[i + 1..])
    else Entries(qs[i].items)[j..] + Flat(qs[i + 1..])
  }

  lemma RestAtStart<K, V>(qs: Row<K, V>)
    ensures RestOf(qs, 0, 0) == Flat(qs)
  {
    if qs != [] {
      var es := Entries(qs[0].items);
      assert es[0..] == es;
      if es == [] { assert es + Flat(qs[1..]) == Flat(qs[1..]); }
    }
  }

  /** An exhausted shard gives way to the next one. */
  lemma RestNextShard<K, V>(qs: Row<K, V>, i: nat, j: nat)
    requires i < |qs| && j >= |qs[i].items|
    ensures RestOf(qs, i, j) == RestOf(qs, i + 1, 0)
  {
    if i + 1 < |qs| {
      assert qs[i + 1..][1..] == qs[i + 2..];
      assert Entries(qs[i + 1].items)[0..] == Entries(qs[i + 1].items);
    }
  }

  lemma RestStep<K, V>(qs: Row<K, V>, i: nat, j: nat)
    requires i < |qs| && j < |qs[i].items|
    ensures RestOf(qs, i, j) == [Entry(qs[i].items[j].key, qs[i].items[j].value)] + RestOf(qs, i, j + 1)
  {
    hide Flat;
    var es, rest := Entries(qs[i].items), Flat(qs[i + 1..]);
    assert es[j..] == [es[j]] + es[j + 1..];
    assert [es[j]] + es[j + 1..] + rest == [es[j]] + (es[j + 1..] + rest);
    if j + 1 == |es| {
      assert es[j + 1..] == [];
      assert [] + rest == rest;
    }
  }

  class Iter<K(==, !new), V> {
    const cache: C.Cache<K, V>
    var shardIdx: nat
    var slotIdx: nat

    constructor (cache: C.Cache<K, V>)
      requires cache.Valid()
      ensures this.cache == cache && Rest() == Flat(cache.Queues())
    {
      this.cache := cache;
      shardIdx, slotIdx := 0, 0;
      new;
      RestAtStart(cache.Queues());
    }

    ghost function Rest(): seq<Entry<K, V>>
      reads this, cache.shards
    {
      RestOf(cache.Queues(), shardIdx, slotIdx)
    }

    /** Yields the entries one by one, in order, and then nothing for ever. */
    method Next() returns (r: Option<Entry<K, V>>)
      requires cache.Valid()
      modifies this
      ensures Rest() == if old(Rest()) == [] then [] else old(Rest())[1..]
      ensures r == if old(Rest()) == [] then None else Some(old(Rest())[0])
    {
      hide Dense.Shard.Valid, Dense.Shard.Loose, IdOf, Matches, Live, NeedleOf, Sound, C.Cache.Layout, RestOf;
      ghost var qs := cache.Queues();
      while true
        invariant RestOf(qs, shardIdx, slotIdx) == old(Rest())
        decreases |cache.shards| - shardIdx
      {
        if shardIdx >= |cache.shards| {
          RestEnds(qs, shardIdx, slotIdx);
          return None;
        }
        var sh := cache.shards[shardIdx];
        sh.Lengths();
        if slotIdx >= sh.len {
          RestNextShard(qs, shardIdx, slotIdx);
          shardIdx, slotIdx := shardIdx + 1, 0;
          continue;
        }
        RestStep(qs, shardIdx, slotIdx);
        var i := slotIdx;
        slotIdx := slotIdx + 1;
        sh.LiveTag(i, qs[shardIdx].items[i].key);
        r := sh.entries[IdOf(sh.scheme.layout, sh.tags[i])];
        return;
      }
    }
  }

  lemma RestEnds<K, V>(qs: Row<K, V>, i: nat, j: nat)
    requires i >= |qs|
    ensures RestOf(qs, i, j) == []
  {
  }

  // ---- draining ----

  /** The entries in slots `lo` to `hi` of a lent arena. */
  function Owned<K, V>(arena: Arena<K, V>, lo: nat, hi: nat): (r: seq<Entry<K, V>>)
    requires lo <= hi <= |arena| && forall e | lo <= e < hi :: arena[e].Some?
    ensures |r| == hi - lo && forall e | lo <= e < hi :: r[e - lo] == arena[e].value
  {
    seq(hi - lo, e requires 0 <= e < hi - lo => arena[lo + e].value)
  }

  /** Ids that are a permutation of the first `n` pick out a permutation of the first `n`. */
  lemma {:induction false} Permuted<T>(ids: seq<nat>, all: seq<T>, picked: seq<T>)
    requires |ids| == |all| == |picked| && Distinct(ids)
    requires forall i | 0 <= i < |ids| :: ids[i] < |all| && picked[i] == all[ids[i]]
    ensures multiset(picked) == multiset(all)
    decreases |ids|
  {
    hide Distinct;
    var n := |ids|;
    if n > 0 {
      var p := PositionOfLast(ids);
      var rest := Without(ids, p);
      forall i | 0 <= i < n - 1 ensures rest[i] < n - 1 && Without(picked, p)[i] == all[..n - 1][rest[i]] {
        assert Without(ids, p)[i] < |ids| - 1;
      }
      Permuted(rest, all[..n - 1], Without(picked, p));
      MultisetWithout(picked, p);
      MultisetWithout(all, n - 1);
      assert Without(all, n - 1) == all[..n - 1];
      assert multiset(Without(picked, p)) == multiset(all[..n - 1]) && picked[p] == all[n - 1];
      hide Without;
    }
  }

  lemma MultisetWithout<T>(s: seq<T>, p: nat)
    requires p < |s|
    ensures multiset(s) == multiset(Without(s, p)) + multiset{s[p]}
  {
    assert s == s[..p] + [s[p]] + s[p + 1..];
  }

  lemma PositionOfLast(ids: seq<nat>) returns (p: nat)
    requires ids != [] && Distinct(ids) && forall i | 0 <= i < |ids| :: ids[i] < |ids|
    ensures p < |ids| && ids[p] == |ids| - 1 && Distinct(Without(ids, p))
    ensures forall i | 0 <= i < |ids| - 1 :: Without(ids, p)[i] < |ids| - 1
  {
    Pigeonhole(ids);
    assert |ids| - 1 in Elements(ids);
    p :| 0 <= p < |ids| && ids[p] == |ids| - 1;
  }

  /** In a valid shard the first `len` arena slots hold exactly the queue's entries. */
  lemma ArenaIsQueue<K, V>(s: Dense.Shard<K, V>)
    requires s.Valid()
    ensures s.len <= s.entries.Length && forall e | 0 <= e < s.entries.Length :: s.entries[e].Some? <==> e < s.len
    ensures multiset(Owned(s.entries[..], 0, s.len)) == multiset(Entries(s.queue.items))
  {
    hide IdOf, Matches, Needle, Linked;
    s.Lengths();
    var live, arena, items := s.LiveTags(), s.entries[..], s.queue.items;
    ArenaIsPrefix(s.scheme, live, arena, items);
    assert forall e | 0 <= e < s.entries.Length :: arena[e] == s.entries[e];
    LinkedIds(s.scheme, live, arena, items);
    var ids := Ids(s.scheme.layout, live);
    var all := Owned(arena, 0, s.len);
    forall i | 0 <= i < s.len ensures ids[i] < s.len && Entries(items)[i] == all[ids[i]] {
      Named(s.scheme, live, arena, items, i);
      assert ids[i] in ids;
    }
    Permuted(ids, all, Entries(items));
  }

  /** By id is by age exactly when the ids run in order. */
  lemma ArenaOrder<K, V>(s: Dense.Shard<K, V>)
    requires s.Valid()
    ensures s.len <= s.entries.Length && forall e | 0 <= e < s.len :: s.entries[e].Some?
    ensures Owned(s.entries[..], 0, s.len) == Entries(s.queue.items) <==> InOrder(s.IdRow())
  {
    hide IdOf, Matches, Needle, Linked;
    s.Lengths();
    var live, arena, items := s.LiveTags(), s.entries[..], s.queue.items;
    ArenaIsPrefix(s.scheme, live, arena, items);
    assert forall e | 0 <= e < s.entries.Length :: arena[e] == s.entries[e];
    var ids, all := s.IdRow(), Owned(arena, 0, s.len);
    forall i | 0 <= i < s.len
      ensures ids[i] < s.len && all[ids[i]] == Entry(items[i].key, items[i].value) == Entries(items)[i]
    {
      Named(s.scheme, live, arena, items, i);
      assert ids[i] in ids;
    }
    if all == Entries(items) {
      forall i | 0 <= i < s.len ensures ids[i] == i {
        assert all[ids[i]] == Entries(items)[ids[i]];
      }
    }
  }

  function Held<K, V>(arena: Arena<K, V>, lo: nat, hi: nat): seq<Entry<K, V>> {
    if lo <= hi <= |arena| && (forall e | lo <= e < hi :: arena[e].Some?) then Owned(arena, lo, hi) else []
  }

  /** What the arenas from shard `i` on hold, by id. */
  function HeldFrom<K, V>(lens: seq<nat>, lent: seq<Arena<K, V>>, i: nat): seq<Entry<K, V>>
    requires |lens| == |lent|
    decreases |lens| - i
  {
    if i >= |lens| then [] else Held(lent[i], 0, lens[i]) + HeldFrom(lens, lent, i + 1)
  }

  /** The entries a drain at shard `i` and id `id` has still to yield. */
  function PendingOf<K, V>(lens: seq<nat>, lent: seq<Arena<K, V>>, i: nat, id: nat): seq<Entry<K, V>>
    requires |lens| == |lent|
  {
    if i >= |lens| then [] else Held(lent[i], id, lens[i]) + HeldFrom(lens, lent, i + 1)
  }

  /** The slots not yet read out, and only those, are initialised. */
  ghost predicate Lent<K, V>(lens: seq<nat>, lent: seq<Arena<K, V>>, i: nat, id: nat) {
    && |lens| == |lent| && (i < |lens| ==> id <= lens[i])
    && forall s | 0 <= s < |lens| :: LentAt(lens[s], lent[s], if s > i then 0 else if s == i then id else lens[s])
  }

  ghost predicate LentAt<K, V>(len: nat, arena: Arena<K, V>, id: nat) {
    len <= |arena| && forall e | 0 <= e < |arena| :: arena[e].Some? <==> id <= e < len
  }

  lemma {:induction false} HeldFromSnoc<K, V>(lens: seq<nat>, lent: seq<Arena<K, V>>, l: nat, a: Arena<K, V>, i: nat)
    requires |lens| == |lent| && i <= |lens|
    ensures HeldFrom(lens + [l], lent + [a], i) == HeldFrom(lens, lent, i) + Held(a, 0, l)
    decreases |lens| - i
  {
    if i < |lens| {
      HeldFromSnoc(lens, lent, l, a, i + 1);
    } else {
      assert HeldFrom(lens + [l], lent + [a], i + 1) == [];
    }
  }

  /** Reading out slots before shard `i` does not change what is held from there on. */
  lemma {:induction false} HeldFromOnly<K, V>(lens: seq<nat>, a: seq<Arena<K, V>>, b: seq<Arena<K, V>>, i: nat)
    requires |lens| == |a| == |b| && forall s | i <= s < |lens| :: a[s] == b[s]
    ensures HeldFrom(lens, a, i) == HeldFrom(lens, b, i)
    decreases |lens| - i
  {
    hide Held;
    if i < |lens| { HeldFromOnly(lens, a, b, i + 1); }
  }

  lemma PendingNextShard<K, V>(lens: seq<nat>, lent: seq<Arena<K, V>>, i: nat, id: nat)
    requires Lent(lens, lent, i, id) && i < |lens| && id >= lens[i]
    ensures PendingOf(lens, lent, i, id) == PendingOf(lens, lent, i + 1, 0) && Lent(lens, lent, i + 1, 0)
  {
    assert LentAt(lens[i], lent[i], id);
    assert Held(lent[i], id, lens[i]) == [];
  }

  lemma HeldStep<K, V>(len: nat, arena: Arena<K, V>, id: nat)
    requires LentAt(len, arena, id) && id < len
    ensures id < |arena| && arena[id].Some? && LentAt(len, arena[id := None], id + 1)
    ensures Held(arena, id, len) == [arena[id].value] + Held(arena[id := None], id + 1, len)
  {
  }

  lemma PendingStep<K, V>(lens: seq<nat>, lent: seq<Arena<K, V>>, i: nat, id: nat)
    requires Lent(lens, lent, i, id) && i < |lens| && id < lens[i]
    ensures i < |lent| && id < |lent[i]| && lent[i][id].Some?
    ensures var lent' := lent[i := lent[i][id := None]];
      && Lent(lens, lent', i, id + 1)
      && PendingOf(lens, lent, i, id) == [lent[i][id].value] + PendingOf(lens, lent', i, id + 1)
  {
    hide HeldFrom, Held, LentAt;
    assert LentAt(lens[i], lent[i], id);
    HeldStep(lens[i], lent[i], id);
    var arena := lent[i][id := None];
    var lent' := lent[i := arena];
    HeldFromOnly(lens, lent, lent', i + 1);
    forall s | 0 <= s < |lens|
      ensures LentAt(lens[s], lent'[s], if s > i then 0 else if s == i then id + 1 else lens[s])
    {
      assert LentAt(lens[s], lent[s], if s > i then 0 else if s == i then id else lens[s]);
    }
    var x, rest, tail := lent[i][id].value, Held(arena, id + 1, lens[i]), HeldFrom(lens, lent, i + 1);
    assert [x] + rest + tail == [x] + (rest + tail);
  }

  function SumFrom(lens: seq<nat>, i: nat): nat
    decreases |lens| - i
  {
    if i >= |lens| then 0 else lens[i] + SumFrom(lens, i + 1)
  }

  lemma {:induction false} HeldCount<K, V>(lens: seq<nat>, lent: seq<Arena<K, V>>, i: nat)
    requires |lens| == |lent| && forall s | i <= s < |lens| :: LentAt(lens[s], lent[s], 0)
    ensures |HeldFrom(lens, lent, i)| == SumFrom(lens, i)
    decreases |lens| - i
  {
    if i < |lens| {
      HeldCount(lens, lent, i + 1);
      assert LentAt(lens[i], lent[i], 0);
    }
  }

  lemma PendingCount<K, V>(lens: seq<nat>, lent: seq<Arena<K, V>>, i: nat, id: nat)
    requires Lent(lens, lent, i, id)
    ensures |PendingOf(lens, lent, i, id)| == if i >= |lens| then 0 else lens[i] - id + SumFrom(lens, i + 1)
  {
    hide HeldFrom, SumFrom;
    if i < |lens| {
      assert LentAt(lens[i], lent[i], id);
      forall s | i + 1 <= s < |lens| ensures LentAt(lens[s], lent[s], 0) {}
      HeldCount(lens, lent, i + 1);
      assert |Held(lent[i], id, lens[i])| == lens[i] - id;
    }
  }

  function SaturatingSub(a: nat, b: nat): nat { if b <= a then a - b else 0 }

  class Drain<K(==, !new), V> {
    const oldLens: seq<nat>
    /** The arenas, borrowed for the life of the drain; a slot read out becomes `None`. */
    var lent: seq<Arena<K, V>>
    var shardIdx: nat
    var nextId: nat

    ghost predicate Valid()
      reads this
    {
      Lent(oldLens, lent, shardIdx, nextId)
    }

    ghost function Pending(): seq<Entry<K, V>>
      requires Valid()
      reads this
    {
      PendingOf(oldLens, lent, shardIdx, nextId)
    }

    /** The cache is valid and empty at once; what it held, each entry once, is pending. */
    constructor (cache: C.Cache<K, V>)
      requires cache.Valid()
      modifies cache.shards, cache.TagArrays(), cache.Arenas()
      ensures cache.Valid() && cache.Queues() == Emptied(|cache.shards|)
      ensures Valid() && multiset(Pending()) == multiset(Flat(old(cache.Queues())))
      ensures Pending() == Flat(old(cache.Queues())) <==> AllInOrder(old(cache.IdRows()))
    {
      hide C.Cache.Valid, Dense.Shard.Valid, Lent, PendingOf, HeldFrom, Flat, AllInOrder, C.Cache.IdRows;
      var lens, arenas := LendAll(cache);
      oldLens, lent := lens, arenas;
      shardIdx, nextId := 0, 0;
      new;
      PendingAtStart(lens, arenas);
    }

    /** Yields what is pending, once each, and then nothing for ever. */
    method Next() returns (r: Option<Entry<K, V>>)
      requires Valid()
      modifies this
      ensures Valid()
      ensures Pending() == if old(Pending()) == [] then [] else old(Pending())[1..]
      ensures r == if old(Pending()) == [] then None else Some(old(Pending())[0])
    {
      hide PendingOf, Lent;
      while true
        invariant Valid() && Pending() == old(Pending())
        decreases |oldLens| - shardIdx
      {
        if shardIdx >= |oldLens| {
          PendingEnds(oldLens, lent, shardIdx, nextId);
          return None;
        }
        if nextId >= oldLens[shardIdx] {
          PendingNextShard(oldLens, lent, shardIdx, nextId);
          shardIdx, nextId := shardIdx + 1, 0;
          continue;
        }
        PendingStep(oldLens, lent, shardIdx, nextId);
        var id := nextId;
        nextId := nextId + 1;
        r := lent[shardIdx][id];
        lent := lent[shardIdx := lent[shardIdx][id := None]];
        return;
      }
    }

    method SizeHint() returns (remaining: nat)
      requires Valid()
      ensures remaining == |Pending()|
    {
      PendingCount(oldLens, lent, shardIdx, nextId);
      remaining := 0;
      if shardIdx < |oldLens| {
        remaining := SaturatingSub(oldLens[shardIdx], nextId);
        ghost var first := remaining;
        for s := shardIdx + 1 to |oldLens|
          invariant remaining + SumFrom(oldLens, s) == first + SumFrom(oldLens, shardIdx + 1)
        {
          remaining := remaining + oldLens[s];
        }
      }
    }

    /** Dropping the drain takes out everything still pending; no slot stays initialised. */
    method Drop() returns (dropped: seq<Entry<K, V>>)
      requires Valid()
      modifies this
      ensures Valid() && dropped == old(Pending()) && Pending() == []
      ensures forall s, e | 0 <= s < |lent| && 0 <= e < |lent[s]| :: lent[s][e].None?
    {
      hide PendingOf, Lent;
      dropped := [];
      while true
        invariant Valid() && dropped + Pending() == old(Pending())
        decreases |Pending()|
      {
        var r := Next();
        if r.None? { break; }
        dropped := dropped + [r.value];
      }
      NothingLent(oldLens, lent, shardIdx, nextId);
    }
  }

  lemma PendingAtStart<K, V>(lens: seq<nat>, lent: seq<Arena<K, V>>)
    requires Lent(lens, lent, 0, 0)
    ensures PendingOf(lens, lent, 0, 0) == HeldFrom(lens, lent, 0)
  {
  }

  lemma PendingEnds<K, V>(lens: seq<nat>, lent: seq<Arena<K, V>>, i: nat, id: nat)
    requires Lent(lens, lent, i, id) && i >= |lens|
    ensures PendingOf(lens, lent, i, id) == []
  {
  }

  /** With nothing pending every slot has been read out. */
  lemma NothingLent<K, V>(lens: seq<nat>, lent: seq<Arena<K, V>>, i: nat, id: nat)
    requires Lent(lens, lent, i, id) && PendingOf(lens, lent, i, id) == []
    ensures forall s, e | 0 <= s < |lent| && 0 <= e < |lent[s]| :: lent[s][e].None?
  {
    PendingCount(lens, lent, i, id);
    forall s | 0 <= s < |lens| ensures forall e | 0 <= e < |lent[s]| :: lent[s][e].None? {
      if s > i { NothingFrom(lens, i + 1, s); }
      assert LentAt(lens[s], lent[s], if s > i then 0 else if s == i then id else lens[s]);
    }
  }

  lemma {:induction false} NothingFrom(lens: seq<nat>, i: nat, s: nat)
    requires SumFrom(lens, i) == 0 && i <= s < |lens|
    ensures lens[s] == 0
    decreases s - i
  {
    if i < s { NothingFrom(lens, i + 1, s); }
  }

  /** In every shard the ids run from the oldest entry to the newest. */
  ghost predicate AllInOrder(rows: seq<seq<nat>>) {
    forall s | 0 <= s < |rows| :: InOrder(rows[s])
  }

  /** Every shard is emptied and lends its arena. */
  method LendAll<K(==, !new), V>(cache: C.Cache<K, V>) returns (lens: seq<nat>, lent: seq<Arena<K, V>>)
    requires cache.Valid()
    modifies cache.shards, cache.TagArrays(), cache.Arenas()
    ensures cache.Valid() && cache.Queues() == Emptied(|cache.shards|)
    ensures Lent(lens, lent, 0, 0) && multiset(HeldFrom(lens, lent, 0)) == multiset(Flat(old(cache.Queues())))
    ensures HeldFrom(lens, lent, 0) == Flat(old(cache.Queues())) <==> AllInOrder(old(cache.IdRows()))
  {
    hide Sound, C.Cache.Layout, C.Cache.AllValid, C.Cache.Route, C.Cache.Queues, C.Cache.Caps, C.Cache.IdRows;
    hide EmptiedTo, LentSoFar, Held, HeldFrom, Lent, LentAt, Flat, AllInOrder;
    ghost var before, rows := cache.Queues(), cache.IdRows();
    lens, lent := [], [];
    EmptiedSound(before, cache.Caps(), cache.Route());
    EmptiedEnds(before);
    LendStart(before, rows);
    for i := 0 to |cache.shards|
      invariant cache.Layout() && cache.AllValid() && cache.Queues() == EmptiedTo(before, i)
      invariant cache.IdRows()[i..] == rows[i..]
      invariant LentSoFar(before, rows, lens, lent, i)
    {
      EmptiedStep(before, i);
      assert rows[i] == rows[i..][0] == cache.IdRows()[i];
      var l, arena := LendOne(cache, i);
      LendStep(before, rows, lens, lent, i, l, arena);
      assert rows[i + 1..] == rows[i..][1..];
      lens, lent := lens + [l], lent + [arena];
    }
    LendEnd(before, rows, lens, lent);
  }

  /** The arenas of the first `i` shards: the entries of their queues, in their order exactly if the ids are. */
  ghost predicate LentSoFar<K, V>(qs: Row<K, V>, rows: seq<seq<nat>>, lens: seq<nat>, lent: seq<Arena<K, V>>, i: nat) {
    && |lens| == |lent| == i <= |qs| == |rows|
    && (forall s | 0 <= s < i :: LentAt(lens[s], lent[s], 0))
    && multiset(HeldFrom(lens, lent, 0)) == multiset(Flat(qs[..i]))
    && (HeldFrom(lens, lent, 0) == Flat(qs[..i]) <==> AllInOrder(rows[..i]))
  }

  lemma LendStart<K, V>(qs: Row<K, V>, rows: seq<seq<nat>>)
    requires |qs| == |rows|
    ensures LentSoFar(qs, rows, [], [], 0)
  {
  }

  lemma LendStep<K, V>(qs: Row<K, V>, rows: seq<seq<nat>>, lens: seq<nat>, lent: seq<Arena<K, V>>,
                       i: nat, l: nat, a: Arena<K, V>)
    requires LentSoFar(qs, rows, lens, lent, i) && i < |qs| && LentAt(l, a, 0)
    requires multiset(Held(a, 0, l)) == multiset(Entries(qs[i].items))
    requires Held(a, 0, l) == Entries(qs[i].items) <==> InOrder(rows[i])
    ensures LentSoFar(qs, rows, lens + [l], lent + [a], i + 1)
  {
    hide HeldFrom, Held, LentAt, Flat, AllInOrder, InOrder;
    FlatSnoc(qs, i);
    InOrderSnoc(rows, i);
    HeldFromSnoc(lens, lent, l, a, 0);
    SameHalves(HeldFrom(lens, lent, 0), Held(a, 0, l), Flat(qs[..i]), Entries(qs[i].items));
  }

  lemma LendEnd<K, V>(qs: Row<K, V>, rows: seq<seq<nat>>, lens: seq<nat>, lent: seq<Arena<K, V>>)
    requires LentSoFar(qs, rows, lens, lent, |qs|)
    ensures Lent(lens, lent, 0, 0) && multiset(HeldFrom(lens, lent, 0)) == multiset(Flat(qs))
    ensures HeldFrom(lens, lent, 0) == Flat(qs) <==> AllInOrder(rows)
  {
    hide HeldFrom, LentAt, Flat, AllInOrder;
    assert qs[..|qs|] == qs && rows[..|rows|] == rows;
    assert forall s | 0 <= s < |lens| :: LentAt(lens[s], lent[s], 0);
    LendLens(lens, lent);
  }

  lemma LendLens<K, V>(lens: seq<nat>, lent: seq<Arena<K, V>>)
    requires |lens| == |lent| && forall s | 0 <= s < |lens| :: LentAt(lens[s], lent[s], 0)
    ensures Lent(lens, lent, 0, 0)
  {
  }

  method LendOne<K(==, !new), V>(cache: C.Cache<K, V>, i: nat) returns (l: nat, arena: Arena<K, V>)
    requires cache.Layout() && cache.AllValid() && i < |cache.shards|
    modifies cache.shards, cache.TagArrays(), cache.Arenas()
    ensures cache.AllValid() && cache.Queues() == old(cache.Queues())[i := Empty()]
    ensures LentAt(l, arena, 0) && multiset(Held(arena, 0, l)) == multiset(Entries(old(cache.Queues())[i].items))
    ensures Held(arena, 0, l) == Entries(old(cache.Queues())[i].items) <==> InOrder(old(cache.IdRows())[i])
    ensures cache.IdRows()[i + 1..] == old(cache.IdRows())[i + 1..]
  {
    hide Dense.Shard.Valid, Held, InOrder, Dense.Shard.IdRow;
    ArenaIsQueue(cache.shards[i]);
    ArenaOrder(cache.shards[i]);
    l, arena := cache.shards[i].Lend();
    cache.Others(i);
    HeldWhole(arena, l);
  }

  lemma InOrderSnoc(rows: seq<seq<nat>>, i: nat)
    requires i < |rows|
    ensures AllInOrder(rows[..i + 1]) <==> AllInOrder(rows[..i]) && InOrder(rows[i])
  {
    hide InOrder;
    assert forall s | 0 <= s < i :: rows[..i + 1][s] == rows[..i][s];
    assert rows[..i + 1][i] == rows[i];
  }

  /** Sequences with the same elements cut at the same place agree exactly when both halves do. */
  lemma SameHalves<T>(a: seq<T>, b: seq<T>, c: seq<T>, d: seq<T>)
    requires multiset(a) == multiset(c)
    ensures a + b == c + d <==> a == c && b == d
  {
    assert |a| == |multiset(a)| == |multiset(c)| == |c|;
    if a + b == c + d {
      assert a == (a + b)[..|a|] && c == (c + d)[..|c|];
      assert b == (a + b)[|a|..] && d == (c + d)[|c|..];
    }
  }

  lemma HeldWhole<K, V>(arena: Arena<K, V>, len: nat)
    requires len <= |arena| && forall e | 0 <= e < len :: arena[e].Some?
    ensures Held(arena, 0, len) == Owned(arena, 0, len)
  {
  }

  method Take<K(==, !new), V>(d: Drain<K, V>, n: nat) returns (taken: seq<Entry<K, V>>)
    requires d.Valid()
    modifies d
    ensures d.Valid() && taken + d.Pending() == old(d.Pending())
    ensures |taken| == if n <= |old(d.Pending())| then n else |old(d.Pending())|
  {
    hide Drain.Valid, Drain.Pending;
    taken := [];
    while |taken| < n
      invariant d.Valid() && taken + d.Pending() == old(d.Pending()) && |taken| <= n
      decreases n - |taken|
    {
      var r := d.Next();
      if r.None? { return; }
      taken := taken + [r.value];
    }
  }

  /** However many entries are taken before the drain is dropped, each comes out exactly once. */
  method TakeSome<K(==, !new), V>(cache: C.Cache<K, V>, n: nat)
    returns (taken: seq<Entry<K, V>>, dropped: seq<Entry<K, V>>)
    requires cache.Valid()
    modifies cache.shards, cache.TagArrays(), cache.Arenas()
    ensures cache.Valid() && cache.Queues() == Emptied(|cache.shards|)
    ensures multiset(taken) + multiset(dropped) == multiset(Flat(old(cache.Queues())))
    ensures |taken| == if n <= Sizes(old(cache.Queues())) then n else Sizes(old(cache.Queues()))
  {
    hide C.Cache.Valid, Drain.Valid, Drain.Pending, Flat, Sizes;
    ghost var all := Flat(cache.Queues());
    FlatSize(cache.Queues());
    var d := new Drain<K, V>(cache);
    ghost var pending := d.Pending();
    assert |pending| == |all| by { assert |multiset(pending)| == |multiset(all)|; }
    taken := Take(d, n);
    dropped := d.Drop();
    assert taken + dropped == pending;
  }

  lemma {:induction false} FlatSize<K, V>(qs: Row<K, V>)
    ensures |Flat(qs)| == Sizes(qs)
  {
    if qs != [] { FlatSize(qs[1..]); }
  }

  // ---- a drain out of order ----

  /** A full queue of two unvisited entries, its hand at the start: the first one is the victim. */
  lemma FirstIsVictim(q: Queue<int, int>, key: int, value: int)
    requires |q.items| == 2 && q.hand == 0 && !q.items[0].visited && !q.items[1].visited
    requires Valid(q) && q.items[0].key != key && q.items[1].key != key
    ensures Insert(q, 2, key, value).1 == Queue([q.items[1], Item(key, value, false)], 0)
    ensures NextIds(q, 2, key, [0, 1]) == [1, 0]
  {
    hide IndexOf;
    assert Swept(q) == (0, q) by {
      assert Sweep(Flags(q.items), 0) == (0, Flags(q.items));
      assert WithFlags(q.items, Flags(q.items)) == q.items;
    }
    assert Without(q.items, 0) == [q.items[1]];
    assert Without([0, 1], 0) == [1];
  }

  method InsertOne(c: C.Cache<int, int>, key: int, value: int)
    requires c.Valid() && |c.shards| == 1 && c.Caps() == [2]
    modifies c.shards, c.TagArrays(), c.Arenas()
    ensures c.Valid()
    ensures var q := old(c.Queues())[0]; Valid(q) && |q.items| <= 2 && |old(c.IdRows())[0]| == |q.items|
    ensures var q := old(c.Queues())[0];
      c.Queues() == [Insert(q, 2, key, value).1] && c.IdRows() == [NextIds(q, 2, key, old(c.IdRows())[0])]
  {
    hide Dense.Shard.Valid, Sieve.Valid, Insert, NextIds, Dense.Shard.IdRow, C.Cache.Layout, C.Cache.Route;
    c.InRange();
    c.shards[0].Lengths();
    assert SoundAt(c.Queues(), c.Caps(), c.Route(), 0);
    var _ := c.Insert(key, value);
  }

  method NewOfTwo() returns (c: C.Cache<int, int>)
    ensures c.Valid() && fresh(c) && fresh(c.shards) && fresh(c.TagArrays()) && fresh(c.Arenas())
    ensures |c.shards| == 1 && c.Caps() == [2] && c.Queues() == [Empty()] && c.IdRows() == [[]]
  {
    hide C.Cache.Valid, Accepts, C.Cache.IdRows, Pow2, C.Cache.Route, Total;
    OneShardOfTwo();
    c := new C.Cache<int, int>(2, 1, 5, _ => 0, false);
    EmptyIds(c);
  }

  /** A cache of capacity 2 after two inserts. */
  method TwoInserts() returns (c: C.Cache<int, int>)
    ensures c.Valid() && fresh(c) && fresh(c.shards) && fresh(c.TagArrays()) && fresh(c.Arenas())
    ensures |c.shards| == 1 && c.Caps() == [2]
    ensures c.Queues() == [Queue([Item(1, 10, false), Item(2, 20, false)], 0)] && c.IdRows() == [[0, 1]]
  {
    hide C.Cache.Valid, Insert, NextIds, C.Cache.IdRows, C.Cache.Caps, C.Cache.Queues;
    WarmUp();
    c := NewOfTwo();
    InsertOne(c, 1, 10);
    InsertOne(c, 2, 20);
  }

  /** And after a third. */
  method ThreeInserts() returns (c: C.Cache<int, int>)
    ensures c.Valid() && fresh(c) && fresh(c.shards) && fresh(c.TagArrays()) && fresh(c.Arenas())
    ensures c.Queues() == [Queue([Item(2, 20, false), Item(3, 30, false)], 0)]
    ensures c.IdRows() == [[1, 0]]
  {
    hide C.Cache.Valid, Insert, NextIds, C.Cache.IdRows, C.Cache.Caps, C.Cache.Queues;
    c := TwoInserts();
    ghost var q := c.Queues()[0];
    assert Valid(q);
    FirstIsVictim(q, 3, 30);
    InsertOne(c, 3, 30);
  }

  lemma OneShardOfTwo()
    ensures Accepts(2, 1) && 2 < Pow2(64)
  {
    assert Pow2(0) == 1;
    Pow2Grows(2, 64);
  }

  lemma EmptyIds(c: C.Cache<int, int>)
    requires c.Valid() && c.Queues() == Emptied(|c.shards|) && |c.shards| == 1
    ensures c.Queues() == [Empty()] && c.IdRows() == [[]]
  {
    hide Dense.Shard.Valid, Dense.Shard.IdRow;
    c.shards[0].Lengths();
  }

  lemma WarmUp()
    ensures var q := Queue([Item(1, 10, false)], 0);
      && Valid<int, int>(Empty()) && Valid(q)
      && Insert(Empty(), 2, 1, 10).1 == q
      && Insert(q, 2, 2, 20).1 == Queue([Item(1, 10, false), Item(2, 20, false)], 0)
      && NextIds<int, int>(Empty(), 2, 1, []) == [0] && NextIds(q, 2, 2, [0]) == [0, 1]
  {
    hide IndexOf, Swept;
  }

  /** What an iterator run to its end yields. */
  method WalkAll<K(==, !new), V>(c: C.Cache<K, V>) returns (walked: seq<Entry<K, V>>)
    requires c.Valid()
    ensures walked == Flat(c.Queues())
  {
    hide Iter.Rest, Flat, Sound, C.Cache.Layout, Dense.Shard.Valid;
    var it := new Iter(c);
    walked := [];
    while true
      invariant c.Valid() && walked + it.Rest() == Flat(c.Queues())
      decreases |it.Rest()|
    {
      var r := it.Next();
      if r.None? { return; }
      walked := walked + [r.value];
    }
  }

  /** Capacity 2 and three inserts: the iterator yields the second entry first, the drain the third. */
  method DrainsOutOfOrder() returns (walked: seq<Entry<int, int>>, drained: seq<Entry<int, int>>)
    ensures walked == [Entry(2, 20), Entry(3, 30)]
    ensures drained == [Entry(3, 30), Entry(2, 20)]
  {
    hide C.Cache.Valid, C.Cache.IdRows, Drain.Valid, Drain.Pending, Flat, AllInOrder;
    var c := ThreeInserts();
    RowOfTwo(c.Queues());
    walked := WalkAll(c);
    var d := new Drain(c);
    drained := d.Drop();
    OutOfOrder();
    TwoApart(drained, Entry(2, 20), Entry(3, 30));
  }

  lemma OutOfOrder()
    ensures !AllInOrder([[1, 0]])
  {
    assert [[1, 0]][0] == [1, 0] && [1, 0][0] == 1;
  }

  lemma RowOfTwo(qs: Row<int, int>)
    requires qs == [Queue([Item(2, 20, false), Item(3, 30, false)], 0)]
    ensures Flat(qs) == [Entry(2, 20), Entry(3, 30)]
  {
    assert qs[1..] == [];
  }

  /** Two elements that are not in this order are in the other one. */
  lemma TwoApart<T>(s: seq<T>, a: T, b: T)
    requires multiset(s) == multiset([a, b]) && s != [a, b]
    ensures s == [b, a]
  {
    assert |s| == |multiset(s)| == 2;
    assert s == [s[0], s[1]];
    assert multiset(s) == multiset{s[0], s[1]} && s[0] in multiset(s) && s[1] in multiset(s);
  }
}

/**
 The c10s and c11s shards, run by one thread: eviction leaves a hole in the tag array,
 a new entry is appended at the tail, and the holes are closed up only when the tail
 reaches the end. The two differ in whether a reader tests the visited bit before
 setting it.
 */
module Holey {
  import opened Bits
  import opened Tags
  import opened Sieve
  import opened Bitmap
  import opened Links
  import opened Positions
  import opened Words
  import opened Simd

  class Shard<K(==), V> {
    const scheme: Scheme<K>
    /** c11s: set the bit only when it is clear. */
    const conditionalSet: bool
    const tags: array<bv16>
    const visited: array<bv64>
    const entries: array<Option<Entry<K, V>>>
    var tail: nat
    var len: nat
    var hand: nat

    /** The queue this shard stands for, and where its tags are. */
    ghost var queue: Queue<K, V>
    ghost var live: seq<nat>

    /** Bookkeeping of the run: new keys installed, tags moved, installs since the last compaction. */
    ghost var installs: nat
    ghost var moves: nat
    ghost var sinceCompaction: nat
    ghost var compactedTail: Option<nat>

    ghost predicate Shape()
      reads this`tail, this`len
    {
      && ValidLayout(scheme.layout) && !scheme.layout.versioned
      && 0 < entries.Length <= MAX_PER_SHARD
      && tags.Length == RoundUp(2 * entries.Length)
      && tags.Length <= 64 * visited.Length
      && tags as object != entries as object && tags as object != visited as object
      && visited as object != entries as object
      && tail <= tags.Length && len <= entries.Length
    }

    /** The tags, the arena and the queue agree; the hand is on its entry or at its rank. */
    ghost predicate Linkage()
      reads this`tail, this`len, this`queue, this`live, tags, entries
    {
      && Shape()
      && |live| == len && Placed(tags[..], live, tail)
      && Linked(scheme, Row(tags[..], live), entries[..], queue.items)
      && Sieve.Valid(queue)
    }

    /** What holds also in the middle of an insert, when an entry has just left. */
    ghost predicate Loose()
      reads this`tail, this`len, this`hand, this`queue, this`live, tags, visited, entries
    {
      && Linkage()
      && FlagsAt(Vis(visited[..]), live, Flags(queue.items))
      && RankIs(live, hand, queue.hand) && hand <= tail
    }

    /** Tags moved are paid for by installs, and a compaction by those since the last one. */
    ghost predicate Accounts()
      reads this`tail, this`installs, this`moves, this`sinceCompaction, this`compactedTail
    {
      && moves + tail <= installs
      && (compactedTail.Some? ==> compactedTail.value < entries.Length && tail == compactedTail.value + sinceCompaction)
    }

    ghost predicate Valid()
      reads this, tags, visited, entries
    {
      && Loose()
      && Compact(scheme.layout, Row(tags[..], live))
      && (if len == 0 then tail == 0 else live[len - 1] == tail - 1)
      && Accounts()
    }

    function Capacity(): nat { entries.Length }

    constructor (capacity: nat, layout: Layout, hasher: K -> bv64, conditionalSet: bool)
      requires 0 < capacity <= MAX_PER_SHARD && ValidLayout(layout) && !layout.versioned
      ensures Valid() && queue == Empty() && Capacity() == capacity && scheme == Scheme(layout, hasher)
      ensures fresh(this) && fresh(tags) && fresh(visited) && fresh(entries)
    {
      scheme, this.conditionalSet := Scheme(layout, hasher), conditionalSet;
      var orderCap := RoundUp(2 * capacity);
      tags := new bv16[orderCap](_ => EMPTY);
      visited := new bv64[(orderCap + 63) / 64](_ => 0);
      entries := new Option<Entry<K, V>>[capacity](_ => None);
      tail, len, hand := 0, 0, 0;
      queue, live := Empty(), [];
      installs, moves, sinceCompaction, compactedTail := 0, 0, 0, None;
      new;
      assert Row(tags[..], live) == [];
    }

    // ---- reader ----

    lemma Facts()
      requires Linkage()
      ensures len == |live| == |queue.items| <= entries.Length <= MAX_PER_SHARD
      ensures Shape() && Sieve.Valid(queue) && Increasing(live) && Within(live, tail) && Within(live, tags.Length)
      ensures forall i | 0 <= i < len :: live[i] < tail <= tags.Length && live[i] < 64 * visited.Length
    {
    }

    /** What the tag at a live position gives. */
    lemma LiveAt(k: nat, key: K)
      requires Linkage() && k < len
      ensures live[k] < tags.Length
      ensures var t := tags[live[k]]; var id := IdOf(scheme.layout, t);
        && id < entries.Length && entries[id].Some? && Live(t) && t != EMPTY
        && entries[id].value == Entry(queue.items[k].key, queue.items[k].value)
        && (queue.items[k].key == key ==> Matches(scheme.layout, t, NeedleOf(scheme, key)))
    {
      hide IdOf, Matches, Needle, Live, Vis;
      Named(scheme, Row(tags[..], live), entries[..], queue.items, k);
    }

    /** A tag that matches a needle is at a live position. */
    lemma MatchAt(pos: nat, k: nat, needle: bv16)
      requires Linkage() && pos < tags.Length && RankIs(live, pos, k) && Live(needle)
      requires Matches(scheme.layout, tags[pos], needle)
      ensures k < len && live[k] == pos
    {
      MatchIsLive(scheme.layout, tags[pos], needle);
      RankStep(live, pos, k);
    }

    /** One candidate of a reader: with no writer about, the second tag load sees the first. */
    method TryCandidate(pos: nat, ghost k: nat, key: K, needle: bv16) returns (r: Option<V>)
      requires Valid() && pos < tail && RankIs(live, pos, k) && needle == NeedleOf(scheme, key)
      modifies this`queue, visited
      ensures Valid()
      ensures r.Some? ==> k < len && live[k] == pos && queue.items[k].key == key && r == Some(queue.items[k].value)
      ensures queue == if r.None? then old(queue)
                       else old(queue).(items := old(queue).items[k := old(queue).items[k].(visited := true)])
      ensures r.None? && k < len && live[k] == pos ==> queue.items[k].key != key
    {
      hide IdOf, Matches, Needle, Linked, Compact, Live, Vis;
      Facts();
      NeedleShape(scheme.layout, scheme.hasher(key));
      if k < len && live[k] == pos { LiveAt(k, key); }
      var t1 := tags[pos];
      if !Matches(scheme.layout, t1, needle) { return None; }
      MatchAt(pos, k, needle);
      LiveAt(k, key);
      var entry := entries[IdOf(scheme.layout, t1)].value;
      var t2 := tags[pos];
      if t2 != t1 || !Live(t2) { return None; }
      if entry.key == key {
        MarkVisited(pos, k);
        return Some(entry.value);
      }
      return None;
    }

    method MarkVisited(pos: nat, ghost k: nat)
      requires Valid() && k < len && live[k] == pos
      modifies this`queue, visited
      ensures Valid() && Vis(visited[..]) == old(Vis(visited[..]))[pos := true]
      ensures queue == old(queue).(items := old(queue).items[k := old(queue).items[k].(visited := true)])
    {
      hide IdOf, Linked, Compact, Placed, FlagsAt, Row, RankIs, Vis;
      Facts();
      FlagsSet(Vis(visited[..]), live, Flags(queue.items), k, true);
      MarkBit(visited, pos, conditionalSet);
      ghost var items' := queue.items[k := queue.items[k].(visited := true)];
      Reflag(scheme, Row(tags[..], live), entries[..], queue.items, items');
      assert Flags(items') == Flags(queue.items)[k := true];
      Adopt(items');
    }

    method GetByHash(key: K, hash: bv64, hasAvx2: bool) returns (r: Option<V>)
      requires Valid() && hash == scheme.hasher(key)
      modifies this`queue, visited
      ensures Valid() && (r, queue) == Sieve.Get(old(queue), key)
    {
      hide IdOf, Matches, Needle, Valid;
      ValidFacts();
      var needle := Needle(scheme.layout, hash);
      if hasAvx2 {
        r := FindGetAvx2(key, needle);
      } else {
        r := FindGetScalar(key, needle);
      }
    }

    method FindGetScalar(key: K, needle: bv16) returns (r: Option<V>)
      requires Valid() && needle == NeedleOf(scheme, key)
      modifies this`queue, visited
      ensures Valid() && (r, queue) == Sieve.Get(old(queue), key)
    {
      hide IdOf, Matches, Needle, Valid, Linkage, RankIs, Increasing, Vis;
      ValidFacts();
      ghost var k := 0;
      RankZero(live);
      for i := 0 to tail
        invariant Valid() && queue == old(queue)
        invariant k <= len && RankIs(live, i, k) && forall j | 0 <= j < k :: queue.items[j].key != key
      {
        r := TryCandidate(i, k, key, needle);
        if r.Some? { return; }
        RankStep(live, i, k);
        if k < len && live[k] == i { k := k + 1; }
      }
      RankAll(live, tail);
      RankUnique(live, tail, k, len);
      r := None;
    }

    /** No live tag below position `p` is `key`'s. */
    ghost predicate NoneBelow(p: nat, key: K)
      requires len == |live| == |queue.items|
      reads this`len, this`queue, this`live
    {
      forall j | 0 <= j < len && live[j] < p :: queue.items[j].key != key
    }

    /** The whole tag array, holes and all, 16 lanes at a time. */
    method FindGetAvx2(key: K, needle: bv16) returns (r: Option<V>)
      requires Valid() && needle == NeedleOf(scheme, key)
      modifies this`queue, visited
      ensures Valid() && (r, queue) == Sieve.Get(old(queue), key)
    {
      hide IdOf, Matches, Needle, Valid, Linkage, Increasing, Within, Vis;
      ValidFacts();
      var limit := tags.Length;
      var i := 0;
      while i < limit
        invariant i % LANE == 0 && i <= limit
        invariant Valid() && queue == old(queue) && NoneBelow(i, key)
      {
        r := ScanChunk(i, key, needle);
        if r.Some? { return; }
        i := i + LANE;
      }
      r := None;
    }

    /** The lanes of one load whose masked tag equals the needle. */
    function CompareLanes(i: nat, needle: bv16): (cmp: seq<bool>)
      requires ValidLayout(scheme.layout) && i + LANE <= tags.Length
      reads tags
      ensures |cmp| == LANE
      ensures forall k | 0 <= k < LANE :: cmp[k] == Matches(scheme.layout, tags[i + k], needle)
    {
      seq(LANE, k requires 0 <= k < LANE && i + k < tags.Length reads tags =>
        Matches(scheme.layout, tags[i + k], needle))
    }

    /** One load: the matching lanes below the tail, lowest first. */
    method ScanChunk(i: nat, key: K, needle: bv16) returns (r: Option<V>)
      requires Valid() && needle == NeedleOf(scheme, key) && i + LANE <= tags.Length
      requires len == |live| == |queue.items| && NoneBelow(i, key)
      modifies this`queue, visited
      ensures Valid() && len == |live| == |queue.items|
      ensures r.Some? ==> (r, queue) == Sieve.Get(old(queue), key)
      ensures r.None? ==> queue == old(queue) && NoneBelow(i + LANE, key)
    {
      hide IdOf, Matches, Needle, Valid, Linkage, RankIs, Increasing;
      hide Within, Vis, Tz, Blsr, MaskFrom, MoveMask, NoneBelow;
      ValidFacts();
      var cmp := CompareLanes(i, needle);
      var mask := MoveMask(cmp);
      MoveMaskBits(cmp);
      ghost var c := 0;
      while mask != 0
        invariant c <= LANE && MaskFrom(mask, cmp, c)
        invariant Valid() && queue == old(queue) && NoneBelow(i + c, key)
        decreases LANE - c
      {
        var bit := Tz(mask);
        ghost var k := NextLane(mask, cmp, c);
        assert bit / 2 == k;
        PassLanes(cmp, i, c, k, key, needle);
        var pos := i + bit / 2;
        r := TryLane(pos, key, needle);
        if r.Some? { return; }
        mask := Blsr(mask);
        mask := Blsr(mask);
        c := k + 1;
      }
      NoLaneLeft(mask, cmp, c);
      PassLanes(cmp, i, c, LANE, key, needle);
      r := None;
    }

    /** One matching lane: tried if it is below the tail, where all live tags are. */
    method TryLane(pos: nat, key: K, needle: bv16) returns (r: Option<V>)
      requires Valid() && pos < tags.Length && needle == NeedleOf(scheme, key)
      requires len == |live| == |queue.items| && NoneBelow(pos, key)
      modifies this`queue, visited
      ensures Valid() && len == |live| == |queue.items|
      ensures r.Some? ==> (r, queue) == Sieve.Get(old(queue), key)
      ensures r.None? ==> queue == old(queue) && NoneBelow(pos + 1, key)
    {
      hide IdOf, Matches, Needle, Valid, Linkage, RankIs, Vis;
      ValidFacts();
      r := None;
      if pos < tail {
        ghost var k := RankOf(live, pos);
        RankPlace(pos, k);
        r := TryCandidate(pos, k, key, needle);
      }
    }

    /** The tag at a position of rank `k`, if it is live, is the `k`-th. */
    lemma RankPlace(pos: nat, k: nat)
      requires RankIs(live, pos, k) && Increasing(live)
      ensures forall j | 0 <= j < |live| && live[j] == pos :: j == k
    {
      RankStep(live, pos, k);
    }

    /** Lanes that do not match are not `key`'s. */
    lemma PassLanes(cmp: seq<bool>, i: nat, c: nat, k: nat, key: K, needle: bv16)
      requires Valid() && needle == NeedleOf(scheme, key)
      requires len == |live| == |queue.items| && NoneBelow(i + c, key)
      requires |cmp| == LANE && i + LANE <= tags.Length && c <= k <= LANE
      requires forall j | 0 <= j < LANE :: cmp[j] == Matches(scheme.layout, tags[i + j], needle)
      requires forall j | c <= j < k :: !cmp[j]
      ensures NoneBelow(i + k, key)
    {
      hide IdOf, Matches, Needle, Vis, Linked, Placed, FlagsAt, RankIs, Compact;
      forall j | 0 <= j < len && live[j] < i + k ensures queue.items[j].key != key {
        if live[j] >= i + c {
          LiveAt(j, key);
          assert !cmp[live[j] - i];
        }
      }
    }

    lemma ValidFacts()
      requires Valid()
      ensures Linkage() && Increasing(live) && Within(live, tail) && len == |live| == |queue.items| <= entries.Length
      ensures ValidLayout(scheme.layout) && forall i | 0 <= i < len :: live[i] < tail <= tags.Length
      ensures Sieve.Valid(queue) && Shape() && 0 < entries.Length
    {
    }

    // ---- insert ----

    method Insert(key: K, value: V, hash: bv64) returns (evicted: Option<(K, V)>)
      requires Valid() && hash == scheme.hasher(key)
      modifies this, tags, visited, entries
      ensures Valid() && (evicted, queue) == Sieve.Insert(old(queue), Capacity(), key, value)
      ensures installs == old(installs) + (if Has(old(queue), key) then 0 else 1)
    {
      hide IdOf, Matches, Needle, Valid, Pending, Sweep, DeleteAt, Vis;
      ValidFacts();
      var needle := Needle(scheme.layout, hash);
      var found := WriterFind(key, needle);
      if found.Some? {
        WriterUpdateInPlace(found.value, key, value);
        return None;
      }
      var entryId;
      if len < entries.Length {
        entryId := len;
        NextIdIsFree();
        evicted := None;
      } else {
        MissesStay(queue, key);
        var e;
        entryId, e := WriterEvictOne();
        evicted := Some((e.key, e.value));
      }
      if tail == tags.Length { WriterCompact(entryId); }
      Install(entryId, needle, key, value);
    }

    method WriterFind(key: K, needle: bv16) returns (r: Option<nat>)
      requires Valid() && needle == NeedleOf(scheme, key)
      ensures var k := IndexOf(queue.items, key);
        if k < len then k < |live| && r == Some(live[k]) else r == None
    {
      hide IdOf, Matches, Needle, Valid, Linkage, Live, RankIs, Increasing, Within, Vis;
      ValidFacts();
      NeedleShape(scheme.layout, scheme.hasher(key));
      ghost var k := 0;
      RankZero(live);
      for i := 0 to tail
        invariant k <= len && RankIs(live, i, k) && forall j | 0 <= j < k :: queue.items[j].key != key
      {
        var t := tags[i];
        if k < len && live[k] == i { LiveAt(k, key); }
        if Matches(scheme.layout, t, needle) {
          MatchAt(i, k, needle);
          if entries[IdOf(scheme.layout, t)].value.key == key { return Some(i); }
        }
        RankStep(live, i, k);
        if k < len && live[k] == i { k := k + 1; }
      }
      RankAll(live, tail);
      RankUnique(live, tail, k, len);
      r := None;
    }

    /** The queue takes over the entries that the tags and the arena already show. */
    ghost method Adopt(items: seq<Item<K, V>>)
      requires Shape() && |live| == len == |items| && Placed(tags[..], live, tail) && Within(live, tags.Length)
      requires Linked(scheme, Row(tags[..], live), entries[..], items) && Compact(scheme.layout, Row(tags[..], live))
      requires FlagsAt(Vis(visited[..]), live, Flags(items)) && RankIs(live, hand, queue.hand) && hand <= tail
      requires Sieve.Valid(queue.(items := items)) && Accounts()
      requires if len == 0 then tail == 0 else live[len - 1] == tail - 1
      modifies this`queue
      ensures Valid() && queue == old(queue).(items := items)
    {
      hide IdOf, Matches, Needle, Linked, Placed, Row, Increasing, Within, FlagsAt, RankIs, Compact, Vis, Flags;
      queue := queue.(items := items);
    }

    /** Through EMPTY and back: the value changes, the tag does not, and the visited bit is set. */
    method WriterUpdateInPlace(pos: nat, key: K, value: V)
      requires Valid() && IndexOf(queue.items, key) < |live| && pos == live[IndexOf(queue.items, key)]
      modifies this`queue, tags, visited, entries
      ensures Valid() && tags[..] == old(tags[..])
      ensures var k := IndexOf(old(queue).items, key);
        k < |old(queue).items| &&
        queue == old(queue).(items := old(queue).items[k := old(queue).items[k].(value := value, visited := true)])
    {
      hide IdOf, Matches, Needle, Linked, Compact, Placed, Row, Increasing, Within, FlagsAt, RankIs, Live, Vis;
      Facts();
      ghost var k := IndexOf(queue.items, key);
      ghost var tags0, row, items := tags[..], Row(tags[..], live), queue.items;
      LiveAt(k, key);
      FlagsSet(Vis(visited[..]), live, Flags(items), k, true);
      SetValue(scheme, row, entries[..], items, k, value, true);
      var t := tags[pos];
      var id := IdOf(scheme.layout, t);
      tags[pos] := EMPTY;
      entries[id] := Some(Entry(key, value));
      tags[pos] := t;
      assert tags[..] == tags0;
      SetBit(visited, pos);
      ghost var items' := items[k := items[k].(value := value, visited := true)];
      assert Flags(items') == Flags(items)[k := true];
      Adopt(items');
    }

    /** Between freeing the slot and writing it. */
    ghost predicate Pending(id: nat)
      reads this, tags, visited, entries
    {
      && Loose() && Accounts()
      && id <= len < entries.Length && entries[id].None?
      && IdsExcept(Ids(scheme.layout, Row(tags[..], live)), len + 1, id)
    }

    lemma NextIdIsFree()
      requires Valid() && len < entries.Length
      ensures Pending(len)
    {
      hide IdOf, Matches, Needle, FlagsAt, RankIs, Linked, Vis;
      ArenaIsPrefix(scheme, Row(tags[..], live), entries[..], queue.items);
      assert entries[..][len].None?;
    }

    /** The new tag goes to the tail, with its visited bit cleared first. */
    method Install(id: nat, needle: bv16, key: K, value: V)
      requires Pending(id) && tail < tags.Length && needle == NeedleOf(scheme, key)
      requires IndexOf(queue.items, key) == |queue.items|
      modifies this, tags, visited, entries
      ensures Valid() && queue == old(queue).(items := old(queue).items + [Item(key, value, false)])
      ensures installs == old(installs) + 1
    {
      hide IdOf, Matches, Needle, Linked, Placed, Row, Increasing;
      hide Within, FlagsAt, RankIs, NewTag, Compact, IdsExcept, Vis;
      hide Flags, Ids, Sieve.Valid;
      Facts();
      ghost var row, item := Row(tags[..], live), Item(key, value, false);
      var tag := NewTag(scheme.layout, id, needle);
      NewTagLaws(scheme.layout, id, scheme.hasher(key));
      Append(scheme, row, entries[..], queue.items, id, item);
      FillsGap(scheme.layout, row, tag);
      AppendPosition(tags[..], live, tail, tag);
      AppendFlagAt(Vis(visited[..]), live, Flags(queue.items), tail);
      AppendRank(live, tail, hand, queue.hand);
      AppendKeepsValid(queue, item);
      assert Flags(queue.items + [item]) == Flags(queue.items) + [false];
      entries[id] := Some(Entry(key, value));
      ClearBit(visited, tail);
      tags[tail] := tag;
      live := live + [tail];
      tail := tail + 1;
      len := len + 1;
      installs := installs + 1;
      sinceCompaction := sinceCompaction + 1;
      Adopt(queue.items + [item]);
    }

    // ---- eviction ----

    /** From `lo` to `hi`: clears the visited bits of live tags until one is not visited. */
    method WriterScanEvict(lo: nat, hi: nat, ghost a: nat, ghost b: nat, ghost flags: seq<bool>)
      returns (r: Option<nat>)
      requires Linkage() && FlagsAt(Vis(visited[..]), live, flags)
      requires lo <= hi <= tail && RankIs(live, lo, a) && RankIs(live, hi, b)
      requires a <= b <= |flags| == len
      modifies visited
      ensures FlagsAt(Vis(visited[..]), live, Clear(flags, a, FirstUnset(flags, a, b)))
      ensures var v := FirstUnset(flags, a, b); r == if v < b then Some(live[v]) else None
    {
      hide IdOf, Matches, Needle, Linked, Placed, Row, Increasing, Within, FlagsAt, RankIs, Live, Vis;
      Facts();
      ghost var k := a;
      assert Clear(flags, a, a) == flags;
      for i := lo to hi
        modifies visited
        invariant lo <= i <= hi && a <= k <= len && RankIs(live, i, k)
        invariant forall j | a <= j < k :: flags[j]
        invariant FlagsAt(Vis(visited[..]), live, Clear(flags, a, k))
      {
        var t := tags[i];
        LiveOrHole(i, k);
        RankStep(live, i, k);
        if Live(t) {
          ReadFlag(Vis(visited[..]), live, Clear(flags, a, k), k);
          var isSet := TestBit(visited, i);
          if isSet {
            FlagsSet(Vis(visited[..]), live, Clear(flags, a, k), k, false);
            ClearBit(visited, i);
            assert Clear(flags, a, k)[k := false] == Clear(flags, a, k + 1);
          } else {
            RankBelow(live, i, k, hi, b);
            FirstUnsetIs(flags, a, b, k);
            return Some(i);
          }
          k := k + 1;
        }
      }
      RankUnique(live, hi, k, b);
      FirstUnsetIs(flags, a, b, b);
      r := None;
    }

    /** A tag is live exactly at the live positions. */
    lemma LiveOrHole(p: nat, k: nat)
      requires Linkage() && p < tags.Length && RankIs(live, p, k)
      ensures Live(tags[p]) <==> k < len && live[k] == p
    {
      hide IdOf, Matches, Needle, Linked, Live, Vis;
      if k < len && live[k] == p {
        Named(scheme, Row(tags[..], live), entries[..], queue.items, k);
      } else {
        RankStep(live, p, k);
        DeadTag();
      }
    }

    lemma DeadTag()
      ensures !Live(EMPTY)
    {
    }

    method WriterFirstLive(lo: nat, hi: nat, ghost a: nat, ghost b: nat) returns (r: Option<nat>)
      requires Linkage() && lo <= hi <= tail && RankIs(live, lo, a) && RankIs(live, hi, b) && a <= b
      ensures r == if a < b then Some(live[a]) else None
    {
      hide IdOf, Matches, Needle, Linked, Placed, Row, Increasing, Within, RankIs, Live, Vis;
      Facts();
      for i := lo to hi
        invariant RankIs(live, i, a)
      {
        LiveOrHole(i, a);
        RankStep(live, i, a);
        if Live(tags[i]) {
          RankBelow(live, i, a, hi, b);
          return Some(i);
        }
      }
      RankUnique(live, hi, a, b);
      r := None;
    }

    /**
     The walk over the holes: from the hand to the tail, then from the start to the hand;
     when all were visited, the first live tag from the hand on. (There always is one, so
     the search from the start that would follow is never made.)
     */
    method Walk(ghost flags: seq<bool>, ghost h: nat) returns (pos: nat)
      requires Linkage() && FlagsAt(Vis(visited[..]), live, flags)
      requires h < len == |flags| == |live| && hand <= tail && RankIs(live, hand, h)
      modifies visited
      ensures pos == live[Sweep(flags, h).0]
      ensures FlagsAt(Vis(visited[..]), live, Sweep(flags, h).1)
    {
      hide IdOf, Linkage, FlagsAt, RankIs, Sweep, Increasing, Within, Vis;
      Facts();
      RankAll(live, tail);
      RankZero(live);
      SweepIsTwoPass(flags, h);
      var r := WriterScanEvict(hand, tail, h, len, flags);
      if r.None? {
        ghost var upper := Clear(flags, h, len);
        r := WriterScanEvict(0, hand, 0, h, upper);
        FirstUnsetIs(upper, 0, h, FirstUnset(flags, 0, h));
        if r.None? {
          r := WriterFirstLive(hand, tail, h, len);
          assert Clear(upper, 0, h) == Clear(flags, 0, len);
        }
      }
      pos := r.value;
    }

    method ScanForVictim() returns (pos: nat)
      requires Valid() && len == entries.Length
      modifies this`hand, this`queue, visited
      ensures Valid()
      ensures var (v, swept) := Swept(old(queue));
        v < |live| && pos == live[v] && queue == swept.(hand := old(queue).hand)
    {
      hide IdOf, Matches, Needle, Linked, Placed, Row, Increasing;
      hide Within, FlagsAt, RankIs, Compact, Sweep, UniqueKeys, Vis;
      Facts();
      ghost var flags, h := Flags(queue.items), queue.hand;
      HandBelowTail();
      hand := InRange(hand, tail);
      pos := Walk(flags, h);
      SetFlags(Sweep(flags, h).1);
    }

    lemma HandBelowTail()
      requires Loose() && 0 < len
      ensures hand < tail && queue.hand < len
    {
      hide IdOf, Matches, Needle, Linked, Placed, Row, Increasing, Within, FlagsAt, Vis;
      Facts();
      assert live[queue.hand] >= hand;
    }

    ghost method SetFlags(flags: seq<bool>)
      requires Linkage() && |flags| == len
      modifies this`queue
      ensures Linkage() && queue == old(queue).(items := WithFlags(old(queue).items, flags))
      ensures Flags(queue.items) == flags
    {
      hide IdOf, Matches, Needle, Linked, Placed, Row, Increasing, Within, Vis;
      Facts();
      var items' := WithFlags(queue.items, flags);
      Reflag(scheme, Row(tags[..], live), entries[..], queue.items, items');
      queue := queue.(items := items');
    }

    method WriterEvictOne() returns (id: nat, e: Entry<K, V>)
      requires Valid() && len == entries.Length
      modifies this`hand, this`len, this`queue, this`live, tags, visited, entries
      ensures Pending(id)
      ensures var (v, swept) := Swept(old(queue));
        queue == DeleteAt(swept, v) && e == Entry(old(queue).items[v].key, old(queue).items[v].value)
    {
      hide Sweep, Valid, Pending, DeleteAt, Vis;
      ValidFacts();
      ghost var v := Swept(queue).0;
      var pos := ScanForVictim();
      id, e := WriterDoEvict(pos, v);
    }

    /** Leaves a hole at `pos`; the hand goes on to the next position, or back to the start. */
    method WriterDoEvict(pos: nat, ghost v: nat) returns (id: nat, e: Entry<K, V>)
      requires Valid() && len == entries.Length && v < len && v < |live| && pos == live[v]
      modifies this`hand, this`len, this`queue, this`live, tags, visited, entries
      ensures Pending(id)
      ensures v < |old(queue).items| && queue == DeleteAt(old(queue).(hand := v), v)
      ensures e == Entry(old(queue).items[v].key, old(queue).items[v].value)
    {
      hide IdOf, Matches, Needle, Linked, Placed, Row, Increasing;
      hide Within, FlagsAt, Compact, UniqueKeys, IdsExcept, Vis, RankIs;
      hide DeleteAt, Flags;
      Facts();
      ghost var row, items := Row(tags[..], live), queue.items;
      LiveAt(v, items[v].key);
      ArenaIsPrefix(scheme, row, entries[..], items);
      Unlink(scheme, row, entries[..], items, v);
      GapInIds(Ids(scheme.layout, row), Ids(scheme.layout, Without(row, v)), len, Ids(scheme.layout, row)[v]);
      var t := tags[pos];
      id := IdOf(scheme.layout, t);
      OpenHole(pos, v);
      e := entries[id].value;
      entries[id] := None;
      MovePast(id, pos, v);
    }

    /** The entry is out and its tag is a hole: the count and the hand follow. */
    method MovePast(ghost id: nat, pos: nat, ghost v: nat)
      requires Shape() && v < len == |queue.items| && |live| == len - 1 && Sieve.Valid(queue) && Accounts()
      requires pos < tail && (v == len - 1 ==> pos == tail - 1)
      requires RankIs(live, pos + 1, v) && Within(live, tail) && Within(live, tags.Length)
      requires Placed(tags[..], live, tail) && Linked(scheme, Row(tags[..], live), entries[..], Without(queue.items, v))
      requires FlagsAt(Vis(visited[..]), live, Flags(Without(queue.items, v)))
      requires id < len && id < entries.Length && entries[id].None?
      requires IdsExcept(Ids(scheme.layout, Row(tags[..], live)), len, id)
      modifies this`hand, this`len, this`queue
      ensures Pending(id) && queue == DeleteAt(old(queue).(hand := v), v)
    {
      hide IdOf, Matches, Needle, Linked, Placed, Row, Increasing, Within, FlagsAt, UniqueKeys, IdsExcept, Vis, RankIs;
      hide DeleteAt, Flags, Ids, Without;
      DeleteKeepsValid(queue.(hand := v), v);
      HandOnDelete(queue, v);
      HoleRank(live, tail, pos + 1, v);
      len := len - 1;
      hand := InRange(pos + 1, tail);
      queue := DeleteAt(queue.(hand := v), v);
    }

    lemma HandOnDelete(q: Queue<K, V>, v: nat)
      requires v < |q.items|
      ensures var q' := DeleteAt(q.(hand := v), v);
        q'.items == Without(q.items, v) && q'.hand == (if v >= |q.items| - 1 then 0 else v)
    {
    }

    /** The next position has the rank the hole had; past the tail both start over. */
    lemma HoleRank(live: seq<nat>, tail: nat, p: nat, v: nat)
      requires RankIs(live, p, v) && Within(live, tail) && p <= tail && (v >= |live| ==> p == tail)
      ensures RankIs(live, InRange(p, tail), if v >= |live| then 0 else v)
    {
      RankZero(live);
      if v < |live| { assert live[v] < tail; }
    }

    /** Zeroes the tag and clears its visited bit: a hole. */
    method OpenHole(pos: nat, ghost v: nat)
      requires Loose() && v < len && v < |live| && pos == live[v]
      modifies this`live, tags, visited
      ensures live == Without(old(live), v) && Placed(tags[..], live, tail)
      ensures Within(live, tail) && Within(live, tags.Length)
      ensures Row(tags[..], live) == Without(old(Row(tags[..], live)), v)
      ensures FlagsAt(Vis(visited[..]), live, Flags(Without(queue.items, v)))
      ensures pos < tail && RankIs(live, pos + 1, v)
    {
      hide IdOf, Matches, Needle, Linked, Placed, Row, Increasing, Within, FlagsAt, UniqueKeys, Vis, RankIs;
      Facts();
      RemovePosition(tags[..], live, tail, v);
      RemoveFlag(Vis(visited[..]), live, Flags(queue.items), v);
      assert Flags(Without(queue.items, v)) == Without(Flags(queue.items), v);
      tags[pos] := EMPTY;
      ClearBit(visited, pos);
      live := Without(live, v);
      PlacedWithin(tags[..], live, tail);
    }

    lemma PlacedWithin(row: seq<bv16>, live: seq<nat>, tail: nat)
      requires Placed(row, live, tail)
      ensures Within(live, tail) && Within(live, |row|)
    {
    }

    // ---- compaction ----

    /**
     Closes up the holes: the live tags move down in order with their visited bits, and
     the hand stays on its entry. There is room to append afterwards, and a full round of
     installs lies between two compactions.
     */
    method WriterCompact(ghost id: nat)
      requires Pending(id) && tail == tags.Length
      modifies this`tail, this`hand, this`live, this`moves, this`sinceCompaction, this`compactedTail, tags, visited
      ensures Pending(id)
      ensures tail == len < tags.Length
      ensures Row(tags[..], live) == old(Row(tags[..], live))
      ensures moves == old(moves) + len && moves <= installs
      ensures old(compactedTail).Some? ==> old(sinceCompaction) >= entries.Length + 1
    {
      hide IdOf, Matches, Needle, Linked, Placed, FlagsAt, RankIs, Increasing, Within, UniqueKeys, IdsExcept, Vis;
      Facts();
      ghost var row := Row(tags[..], live);
      var write, newHand := CloseUp();
      ClearTail(row, Flags(queue.items), write);
      EndCompaction(id, row, write, newHand);
    }

    /** The tags are closed up: the tail and the hand follow them. */
    method EndCompaction(ghost id: nat, ghost row: seq<bv16>, write: nat, newHand: Option<nat>)
      requires Shape() && tail == tags.Length && Accounts() && write == len == |row| == |queue.items|
      requires forall j | 0 <= j < len :: tags[j] == row[j]
      requires forall j | len <= j < tags.Length :: tags[j] == EMPTY
      requires FlagsAt(Vis(visited[..]), Closed(len), Flags(queue.items))
      requires Linked(scheme, row, entries[..], queue.items) && Sieve.Valid(queue)
      requires newHand == if queue.hand < len then Some(queue.hand) else None
      requires id <= len < entries.Length && entries[id].None? && IdsExcept(Ids(scheme.layout, row), len + 1, id)
      modifies this`tail, this`hand, this`live, this`moves, this`sinceCompaction, this`compactedTail
      ensures Pending(id) && tail == len < tags.Length && Row(tags[..], live) == row
      ensures moves == old(moves) + len && moves <= installs
      ensures old(compactedTail).Some? ==> old(sinceCompaction) >= entries.Length + 1
    {
      hide IdOf, Matches, Needle, Linked, Placed, FlagsAt, RankIs;
      hide Increasing, Row, UniqueKeys, IdsExcept, Vis, Flags, Ids;
      ClosedRow(tags[..], row);
      ClosedRank(len, queue.hand);
      live := Closed(len);
      tail := write;
      hand := if len == 0 || newHand.None? then 0 else newHand.value;
      moves := moves + len;
      sinceCompaction, compactedTail := 0, Some(len);
    }

    /** The pass over the old positions; `newHand` is where the hand's entry went. */
    method CloseUp() returns (write: nat, newHand: Option<nat>)
      requires Loose() && tail == tags.Length
      modifies tags, visited
      ensures write == len
      ensures newHand == if queue.hand < len then Some(queue.hand) else None
      ensures len == |live| == |queue.items| && Within(live, tags.Length)
      ensures forall j | 0 <= j < len ::
        tags[j] == old(tags[..])[live[j]] && Vis(visited[..])[j] == queue.items[j].visited
    {
      hide Loose, Linkage, Linked, Placed, FlagsAt, RankIs, Increasing, Within, Closing, Live, Vis, Row, Flags;
      LooseFacts();
      ghost var tags0, vis0, flags, arena := tags[..], Vis(visited[..]), Flags(queue.items), entries[..];
      var oldHand := if hand <= tail then hand else tail;
      write, newHand := 0, None;
      RankZero(live);
      CloseStart(live, tags0, vis0, flags);
      for p := 0 to tail
        modifies tags, visited
        invariant RankIs(live, p, write) && write <= len
        invariant Closing(live, tags0, vis0, flags, tags[..], Vis(visited[..]), p, write)
        invariant newHand == if queue.hand < write then Some(queue.hand) else None
      {
        write, newHand := CloseTurn(tags0, vis0, flags, arena, oldHand, p, write, newHand);
      }
      RankAll(live, tail);
      RankUnique(live, tail, write, len);
      CloseEnd(live, tags0, vis0, flags, tags[..], Vis(visited[..]));
    }

    /** One old position: a hole is passed over, a live tag moves down. */
    method CloseTurn(ghost tags0: seq<bv16>, ghost vis0: seq<bool>, ghost flags: seq<bool>, ghost arena: Arena<K, V>,
                     oldHand: nat, p: nat, write: nat, newHand: Option<nat>)
      returns (write': nat, newHand': Option<nat>)
      requires tags as object != visited as object && p < tags.Length && oldHand == hand
      requires Closing(live, tags0, vis0, flags, tags[..], Vis(visited[..]), p, write)
      requires Placed(tags0, live, |tags0|) && Linked(scheme, Row(tags0, live), arena, queue.items)
      requires Increasing(live) && FlagsAt(vis0, live, flags)
      requires RankIs(live, hand, queue.hand) && RankIs(live, p, write)
      requires write <= |live| && newHand == if queue.hand < write then Some(queue.hand) else None
      modifies tags, visited
      ensures Closing(live, tags0, vis0, flags, tags[..], Vis(visited[..]), p + 1, write')
      ensures write' <= |live| && RankIs(live, p + 1, write')
      ensures newHand' == if queue.hand < write' then Some(queue.hand) else None
    {
      hide Closing, Placed, Linked, FlagsAt, RankIs, Increasing, Vis, Live, Row;
      var t := tags[p];
      CloseRead(live, tags0, vis0, flags, tags[..], Vis(visited[..]), p, write);
      OldTag(tags0, arena, p, write);
      write', newHand' := write, newHand;
      if Live(t) {
        if newHand.None? && p >= oldHand { newHand' := Some(write); }
        CloseAt(tags0, vis0, flags, p, write);
        write' := write + 1;
      }
    }

    lemma LooseFacts()
      requires Loose()
      ensures Shape() && len == |live| == |queue.items| && hand <= tail
      ensures Increasing(live) && Within(live, tail) && Within(live, tags.Length)
      ensures Placed(tags[..], live, tail) && Linked(scheme, Row(tags[..], live), entries[..], queue.items)
      ensures FlagsAt(Vis(visited[..]), live, Flags(queue.items)) && RankIs(live, hand, queue.hand)
    {
    }

    /** In the tag array as it was, a tag is live exactly at the live positions. */
    lemma OldTag(tags0: seq<bv16>, arena: Arena<K, V>, p: nat, k: nat)
      requires Placed(tags0, live, |tags0|) && Linked(scheme, Row(tags0, live), arena, queue.items)
      requires p < |tags0| && RankIs(live, p, k)
      requires Increasing(live) && RankIs(live, hand, queue.hand)
      ensures Live(tags0[p]) ==>
        k < |live| && live[k] == p && RankIs(live, p + 1, k + 1) && (p >= hand <==> k >= queue.hand)
      ensures !Live(tags0[p]) ==> tags0[p] == EMPTY && RankIs(live, p + 1, k)
    {
      hide IdOf, Matches, Needle, Linked, Live, Vis;
      LinkedIds(scheme, Row(tags0, live), arena, queue.items);
      RankStep(live, p, k);
      if k < |live| && live[k] == p {
        Named(scheme, Row(tags0, live), arena, queue.items, k);
      } else {
        DeadTag();
      }
    }

    method CloseAt(ghost tags0: seq<bv16>, ghost vis0: seq<bool>, ghost flags: seq<bool>, p: nat, write: nat)
      requires tags as object != visited as object && p < tags.Length
      requires Closing(live, tags0, vis0, flags, tags[..], Vis(visited[..]), p, write)
      requires write < |live| && live[write] == p && FlagsAt(vis0, live, flags)
      modifies tags, visited
      ensures Closing(live, tags0, vis0, flags, tags[..], Vis(visited[..]), p + 1, write + 1)
    {
      hide Closing, FlagsAt, Vis;
      CloseRead(live, tags0, vis0, flags, tags[..], Vis(visited[..]), p, write);
      CloseStep(live, tags0, vis0, flags, tags[..], Vis(visited[..]), p, write);
      CloseOne(p, write);
    }

    /** One live tag moves down, through EMPTY, and its visited bit with it. */
    method CloseOne(p: nat, write: nat)
      requires write <= p < tags.Length <= 64 * visited.Length && tags as object != visited as object
      modifies tags, visited
      ensures tags[..] == if write != p then old(tags[..])[write := old(tags[p])][p := EMPTY] else old(tags[..])
      ensures var vis := old(Vis(visited[..]));
        Vis(visited[..]) == if write != p then vis[p := false][write := vis[p]] else vis
    {
      hide Bit, Vis;
      var t := tags[p];
      var wasVisited := TestBit(visited, p);
      if write != p {
        tags[write] := EMPTY;
        tags[p] := EMPTY;
        tags[write] := t;
        ClearBit(visited, p);
      }
      if wasVisited {
        SetBit(visited, write);
      } else {
        ClearBit(visited, write);
      }
    }

    /** Everything past the closed-up tags is zeroed. */
    method ClearTail(ghost row: seq<bv16>, ghost flags: seq<bool>, write: nat)
      requires Shape() && tail == tags.Length && write == |row| == |flags| <= tail
      requires forall j | 0 <= j < write :: tags[j] == row[j] && Vis(visited[..])[j] == flags[j]
      modifies tags, visited
      ensures forall j | 0 <= j < write :: tags[j] == row[j]
      ensures FlagsAt(Vis(visited[..]), Closed(write), flags)
      ensures forall j | write <= j < tags.Length :: tags[j] == EMPTY
    {
      hide Bit, Vis;
      for i := write to tail
        modifies tags, visited
        invariant forall j | 0 <= j < write :: tags[j] == row[j] && Vis(visited[..])[j] == flags[j]
        invariant forall j | write <= j < i :: tags[j] == EMPTY
      {
        tags[i] := EMPTY;
        ClearBit(visited, i);
      }
    }
  }
}

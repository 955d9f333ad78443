/**
 The sharded cache: a fixed row of shards, each call routed to one of them by its hash.
 Every operation is proved to do to the row of queues what `Sharded` says, and a call on
 one key to leave every other shard's tags, arena, bitmap, hand and counters alone.
 */
module Cache {
  import opened Bits
  import opened Tags
  import opened Sieve
  import opened SieveLaws
  import opened Sharding
  import opened Sharded
  import opened Remap
  import opened RowPass
  import opened Counters
  import opened RowStats
  import Dense = Shard

  class Cache<K(==, !new), V> {
    const shards: seq<Dense.Shard<K, V>>
    const shardMask: bv64
    const hasher: K -> bv64
    const hasAvx2: bool

    ghost function TagArrays(): set<array<bv16>> { set s | s in shards :: s.tags }

    ghost function Arenas(): set<array<Option<Entry<K, V>>>> { set s | s in shards :: s.entries }

    ghost function Route(): Routing<K> { k => RouteOf(hasher(k), shardMask) }

    ghost function Caps(): (r: seq<nat>)
      ensures |r| == |shards|
    {
      seq(|shards|, i requires 0 <= i < |shards| => shards[i].Capacity())
    }

    /** The queues the shards stand for. */
    ghost function Queues(): (r: Row<K, V>)
      reads shards
      ensures |r| == |shards| && forall i | 0 <= i < |r| :: r[i] == shards[i].queue
    {
      seq(|shards|, i requires 0 <= i < |shards| reads shards => shards[i].queue)
    }

    /** The counters of each shard. */
    ghost function StatsRow(): (r: seq<Stats>)
      reads shards
      ensures |r| == |shards| && forall i | 0 <= i < |r| :: r[i] == shards[i].Counted()
    {
      seq(|shards|, i requires 0 <= i < |shards| reads shards => shards[i].Counted())
    }

    /** What never changes: the mask, one hash function, and shards that share nothing. */
    ghost predicate Layout() {
      && IsPow2(|shards|) && |shards| <= Pow2(64) && shardMask == MaskFor(|shards|)
      && (forall i | 0 <= i < |shards| :: shards[i].scheme.hasher == hasher)
      && forall i, j | 0 <= i < j < |shards| :: shards[i].Repr() !! shards[j].Repr()
    }

    ghost predicate AllValid()
      reads shards, TagArrays(), Arenas()
    {
      forall i | 0 <= i < |shards| :: shards[i].Valid()
    }

    ghost predicate Valid()
      reads shards, TagArrays(), Arenas()
    {
      && Layout()
      && AllValid()
      && Sound(Queues(), Caps(), Route())
    }

    /** The ids of each shard's live entries, oldest first. */
    ghost function IdRows(): (r: seq<seq<nat>>)
      requires AllValid()
      reads shards, TagArrays(), Arenas()
      ensures |r| == |shards| && forall i | 0 <= i < |r| :: r[i] == shards[i].IdRow()
    {
      seq(|shards|, i requires 0 <= i < |shards| && AllValid() reads shards, TagArrays(), Arenas() => shards[i].IdRow())
    }

    constructor (capacity: nat, shards: nat, shift: bv16, hasher: K -> bv64, hasAvx2: bool)
      requires Accepts(capacity, shards) && capacity < Pow2(64) && Dense.SlotShift(shift)
      ensures Valid() && fresh(this) && |this.shards| == shards
      ensures fresh(this.shards) && fresh(TagArrays()) && fresh(Arenas())
      ensures this.hasher == hasher
      ensures Queues() == Emptied(shards) && Sum(StatsRow()) == NOTHING
      ensures (forall i | 0 <= i < shards :: Caps()[i] == ShareOf(capacity, shards, i)) && Total(Caps()) == capacity
    {
      hide Dense.Shard.Valid, Dense.Shard.Shape, ShareOf, Layout, AllValid, FreshRow;
      hide Sound, IsPow2, Pow2, Total, Shares, MaskFor, Sum;
      var built := BuildShards<K, V>(capacity, shards, shift, hasher);
      this.shards := built;
      this.hasher, this.hasAvx2 := hasher, hasAvx2;
      this.shardMask := MaskFor(shards);
      new;
      Adopt();
      EmptySound();
      NothingCounted();
      TotalOfShares(capacity, shards, Caps());
      SharesAddUp(capacity, shards);
    }

    /** Every hash is routed to one of the shards: the hash modulo their number. */
    lemma InRange()
      requires Layout()
      ensures forall k :: Route()(k) == Value(hasher(k)) % |shards| < |shards|
    {
      hide Value, Below, And, RouteOf;
      var b: nat :| |shards| == Pow2(b);
      Log2OfPow2(b);
      if b > 64 { Pow2Grows(64, b); }
      forall k ensures Route()(k) == Value(hasher(k)) % |shards| < |shards| {
        RouteIsModulo(hasher(k), b);
      }
    }

    lemma Adopt()
      requires FreshRow(shards, |shards|, hasher)
      requires IsPow2(|shards|) && |shards| <= Pow2(64) && shardMask == MaskFor(|shards|)
      ensures Layout() && AllValid() && forall i | 0 <= i < |shards| :: shards[i].queue == Empty()
    {
      hide Dense.Shard.Valid, IsPow2, MaskFor;
    }

    lemma NothingCounted()
      requires FreshRow(shards, |shards|, hasher)
      ensures Sum(StatsRow()) == NOTHING
    {
      hide Sum, Dense.Shard.Valid;
      SumOfNothing(|shards|);
      forall i | 0 <= i < |shards| ensures StatsRow()[i] == Nothings(|shards|)[i] { NothingsAt(|shards|, i); }
      assert StatsRow() == Nothings(|shards|);
    }

    lemma EmptySound()
      requires Layout() && AllValid() && forall i | 0 <= i < |shards| :: shards[i].queue == Empty()
      ensures Sound(Queues(), Caps(), Route()) && Queues() == Emptied(|shards|)
    {
      InRange();
      forall i | 0 <= i < |shards| ensures SoundAt(Queues(), Caps(), Route(), i) {
        shards[i].Lengths();
      }
    }

    /** Every other shard is as it was: its tags, arena, bitmap, hand and counters. */
    twostate predicate OthersUntouched(i: nat)
      reads shards, TagArrays(), Arenas()
    {
      forall j | 0 <= j < |shards| && j != i ::
        unchanged(shards[j]) && unchanged(shards[j].tags) && unchanged(shards[j].entries)
    }

    lemma Apart(i: nat)
      requires Layout() && i < |shards|
      ensures forall j | 0 <= j < |shards| && j != i :: shards[j].Repr() !! shards[i].Repr()
    {
    }

    /** After a call on shard `i` alone, the others are as they were. */
    twostate lemma Others(i: nat)
      requires Layout() && old(AllValid()) && i < |shards| && shards[i].Valid() && OthersUntouched(i)
      ensures AllValid() && Queues() == old(Queues())[i := shards[i].queue]
      ensures StatsRow() == old(StatsRow())[i := shards[i].Counted()]
    {
      hide Dense.Shard.Valid;
    }

    twostate lemma OtherIds(i: nat)
      requires old(AllValid()) && AllValid() && i < |shards| && OthersUntouched(i)
      ensures IdRows() == old(IdRows())[i := shards[i].IdRow()]
    {
      hide Dense.Shard.Valid, Dense.Shard.IdRow;
    }

    /** `stats`: the counters summed over the shards. */
    method ReadStats() returns (r: Stats)
      ensures r == Sum(StatsRow())
    {
      hide Sum;
      r := NOTHING;
      ghost var row := StatsRow();
      SumSnoc([], NOTHING);
      assert row[..0] == [];
      for i := 0 to |shards|
        invariant r == Sum(row[..i])
      {
        assert row[..i + 1] == row[..i] + [row[i]];
        SumSnoc(row[..i], row[i]);
        r := Plus(r, shards[i].Counted());
      }
      assert row[..|shards|] == row;
    }

    /** `shard_of_hash`. */
    method ShardOf(key: K) returns (h: bv64, i: nat)
      requires Valid()
      ensures h == hasher(key) && i == Route()(key) < |shards| && SoundAt(Queues(), Caps(), Route(), i)
      ensures shards[i].Valid() && shards[i].scheme.hasher == hasher
    {
      hide Dense.Shard.Valid, RouteOf, Sieve.Valid;
      InRange();
      h := hasher(key);
      i := RouteOf(h, shardMask);
      assert i == Route()(key);
    }

    method Insert(key: K, value: V) returns (evicted: Option<(K, V)>)
      requires Valid()
      modifies shards, TagArrays(), Arenas()
      ensures Valid()
      ensures var (r, qs) := Step(old(Queues()), Caps(), Route(), Write(key, value));
        && evicted == r.evicted && Queues() == qs
        && Sum(StatsRow()) ==
           Plus(old(Sum(StatsRow())), Charge(Write(key, value), r, PeekAt(old(Queues()), Route(), key)))
      ensures OthersUntouched(Route()(key))
      ensures var i := Route()(key);
        i < |shards| && shards[i].IdRow() ==
        NextIds(old(shards[i].queue), shards[i].Capacity(), key, old(shards[i].IdRow()))
    {
      hide Dense.Shard.Valid, RouteOf, Sieve.Valid, Sieve.Insert, Sum, StatsRow, NextIds;
      hide Dense.Shard.IdRow, Charge, Has, Sound, Layout, AllValid;
      var h, i := ShardOf(key);
      WriteSound(Queues(), Caps(), Route(), key, value);
      CallCharge(Queues(), Caps(), Route(), Write(key, value));
      ghost var before := StatsRow();
      Apart(i);
      evicted := shards[i].Insert(key, value, h, hasAvx2);
      Others(i);
      SumOneMore(before, i, Stats(0, 0, 1, if evicted.Some? then 1 else 0));
    }

    method Get(key: K) returns (r: Option<V>)
      requires Valid()
      modifies shards, TagArrays(), Arenas()
      ensures Valid()
      ensures var (reply, qs) := Step(old(Queues()), Caps(), Route(), Look(key));
        && r == reply.value && Queues() == qs
        && Sum(StatsRow()) ==
           Plus(old(Sum(StatsRow())), Charge(Look(key), reply, PeekAt(old(Queues()), Route(), key)))
      ensures OthersUntouched(Route()(key))
    {
      hide Dense.Shard.Valid, RouteOf, Sieve.Valid, Sieve.Get, Sum, StatsRow, Sieve.Peek;
      hide Dense.Shard.IdRow, Charge, Has, Sound, Layout, AllValid;
      var h, i := ShardOf(key);
      LookSound(Queues(), Caps(), Route(), key);
      GetPeek(shards[i].queue, key, key) by { shards[i].Lengths(); }
      HasIsPeek(shards[i].queue, key);
      CallCharge(Queues(), Caps(), Route(), Look(key));
      ghost var before := StatsRow();
      Apart(i);
      r := shards[i].Get(key, h, hasAvx2);
      Others(i);
      SumOneMore(before, i, if r.Some? then Stats(1, 0, 0, 0) else Stats(0, 1, 0, 0));
    }

    /** `get_mut` and `peek_mut`, with what the caller then does to the value. */
    method Change(key: K, promote: bool, g: V -> V) returns (r: Option<V>)
      requires Valid()
      modifies shards, TagArrays(), Arenas()
      ensures Valid()
      ensures var (reply, qs) := Step(old(Queues()), Caps(), Route(), Amend(key, promote, g));
        && r == reply.value && Queues() == qs
        && Sum(StatsRow()) ==
           Plus(old(Sum(StatsRow())), Charge(Amend(key, promote, g), reply, PeekAt(old(Queues()), Route(), key)))
      ensures OthersUntouched(Route()(key))
    {
      hide Dense.Shard.Valid, RouteOf, Sieve.Valid, Sieve.Change, Sum, StatsRow, Sieve.Peek;
      hide Dense.Shard.IdRow, Charge, Has, Sound, Layout, AllValid;
      var h, i := ShardOf(key);
      AmendSound(Queues(), Caps(), Route(), key, promote, g);
      ChangePeek(shards[i].queue, key, promote, g, key) by { shards[i].Lengths(); }
      HasIsPeek(shards[i].queue, key);
      CallCharge(Queues(), Caps(), Route(), Amend(key, promote, g));
      ghost var before := StatsRow();
      Apart(i);
      r := shards[i].Change(key, h, hasAvx2, promote, g);
      Others(i);
      SumOneMore(before, i, if !promote then NOTHING else if r.Some? then Stats(1, 0, 0, 0) else Stats(0, 1, 0, 0));
    }

    method Peek(key: K) returns (r: Option<V>)
      requires Valid()
      ensures r == PeekAt(Queues(), Route(), key)
    {
      hide Dense.Shard.Valid, RouteOf, Sieve.Valid;
      var h, i := ShardOf(key);
      r := shards[i].Peek(key, h, hasAvx2);
    }

    method ContainsKey(key: K) returns (r: bool)
      requires Valid()
      ensures r <==> PeekAt(Queues(), Route(), key).Some?
    {
      hide Dense.Shard.Valid, RouteOf, Sieve.Valid;
      var h, i := ShardOf(key);
      r := shards[i].Contains(key, h, hasAvx2);
    }

    method Remove(key: K) returns (r: Option<V>)
      requires Valid()
      modifies shards, TagArrays(), Arenas()
      ensures Valid()
      ensures var (reply, qs) := Step(old(Queues()), Caps(), Route(), Delete(key));
        r == reply.value && Queues() == qs
      ensures OthersUntouched(Route()(key))
      ensures var i := Route()(key);
        i < |shards| && shards[i].IdRow() == IdsWithout(old(shards[i].queue).items, key, old(shards[i].IdRow()))
      ensures Sum(StatsRow()) == old(Sum(StatsRow()))
    {
      hide Dense.Shard.Valid, RouteOf, Sieve.Valid, Sieve.Remove, Sum, StatsRow, IdsWithout, Dense.Shard.IdRow;
      var h, i := ShardOf(key);
      DeleteSound(Queues(), Caps(), Route(), key);
      ghost var before := StatsRow();
      r := shards[i].Remove(key, h, hasAvx2);
      Others(i);
      assert StatsRow() == before;
    }

    /** The closure is evaluated on a miss only; a pair evicted to make room is dropped. */
    method GetOrInsertWith(key: K, f: () -> V) returns (r: V)
      requires Valid()
      modifies shards, TagArrays(), Arenas()
      ensures Valid()
      ensures var (reply, qs) := Step(old(Queues()), Caps(), Route(), LookOrWrite(key, f()));
        && reply.value == Some(r) && Queues() == qs
        && Sum(StatsRow()) ==
           Plus(old(Sum(StatsRow())), Charge(LookOrWrite(key, f()), reply, PeekAt(old(Queues()), Route(), key)))
      ensures PeekAt(Queues(), Route(), key) == Some(r)
      ensures OthersUntouched(Route()(key))
    {
      hide Dense.Shard.Valid, RouteOf, Sieve.Valid, Sieve.Insert, Sieve.Get, NextIds, Dense.Shard.IdRow;
      hide Sum, StatsRow, Has, Charge, Sieve.Peek, Sound, Layout, AllValid;
      var h, i := ShardOf(key);
      LookSound(Queues(), Caps(), Route(), key);
      WriteSound(Queues(), Caps(), Route(), key, f());
      CallCharge(Queues(), Caps(), Route(), LookOrWrite(key, f()));
      ghost var before, q := StatsRow(), shards[i].queue;
      ghost var e := Sieve.Insert(q, shards[i].Capacity(), key, f()).0;
      Apart(i);
      r := shards[i].GetOrInsertWith(key, h, hasAvx2, f);
      Others(i);
      SumOneMore(before, i, if Has(q, key) then Stats(1, 0, 0, 0) else Stats(0, 1, 1, if e.Some? then 1 else 0));
    }

    method ClearShard(i: nat) returns (dropped: seq<Entry<K, V>>)
      requires Layout() && AllValid() && i < |shards|
      modifies shards, TagArrays(), Arenas()
      ensures AllValid() && Queues() == old(Queues())[i := Empty()]
      ensures dropped == Entries(old(Queues())[i].items)
      ensures OthersUntouched(i) && StatsRow() == old(StatsRow())
    {
      hide Dense.Shard.Valid;
      dropped := shards[i].Clear();
      Others(i);
    }

    /** Drops every entry, once each. */
    method Clear() returns (dropped: seq<Entry<K, V>>)
      requires Valid()
      modifies shards, TagArrays(), Arenas()
      ensures Valid() && Queues() == Emptied(|shards|) == Step(old(Queues()), Caps(), Route(), Wipe).1
      ensures StatsRow() == old(StatsRow())
      ensures dropped == Flat(old(Queues()))
    {
      hide Sound, Route, Layout, AllValid, Caps, Queues, StatsRow;
      EmptiedSound(Queues(), Caps(), Route());
      dropped := ClearAll();
    }

    method ClearAll() returns (dropped: seq<Entry<K, V>>)
      requires Layout() && AllValid()
      modifies shards, TagArrays(), Arenas()
      ensures AllValid() && Queues() == Emptied(|shards|) && dropped == Flat(old(Queues()))
      ensures StatsRow() == old(StatsRow())
    {
      hide EmptiedTo, Emptied, Layout, AllValid, Caps, Queues, StatsRow;
      ghost var before := Queues();
      dropped := [];
      EmptiedEnds(before);
      for i := 0 to |shards|
        invariant AllValid() && Queues() == EmptiedTo(before, i) && dropped == Flat(before[..i])
        invariant StatsRow() == old(StatsRow())
      {
        EmptiedStep(before, i);
        FlatSnoc(before, i);
        var d := ClearShard(i);
        dropped := dropped + d;
      }
      assert before[..|shards|] == before;
    }

    method RetainShard(i: nat, f: Closure<K, V>) returns (n: nat, aborted: bool, dropped: seq<Entry<K, V>>)
      requires Layout() && AllValid() && i < |shards|
      modifies shards, TagArrays(), Arenas()
      ensures AllValid() && n == |old(Queues())[i].items| && OthersUntouched(i)
      ensures Queues() == old(Queues())[i := Queues()[i]]
      ensures Sieve.Retain(old(Queues())[i], f) ==
              if aborted then Sieve.Aborted(dropped) else Sieve.Done(Queues()[i], dropped)
      ensures aborted ==> Queues()[i] == Empty()
      ensures IdRows() == old(IdRows())[i := IdRows()[i]] && StatsRow() == old(StatsRow())
      ensures !aborted ==> KeptRemapped(old(Queues())[i], old(IdRows())[i], 0, f, IdRows()[i])
    {
      hide Dense.Shard.Valid, Sieve.Retain, KeptIds, Remaps, Dense.Shard.IdRow;
      shards[i].Lengths();
      n := shards[i].len;
      aborted, dropped := shards[i].Retain(f);
      Others(i);
      OtherIds(i);
    }

    /** The pass is at shard `i`, after `calls` calls of `f`, and goes on to end in `outcome`. */
    ghost predicate Passing(before: Row<K, V>, ids: seq<seq<nat>>, f: Closure<K, V>, i: nat, calls: nat,
                            dropped: seq<Entry<K, V>>, outcome: RowOutcome<K, V>)
      requires AllValid()
      reads shards, TagArrays(), Arenas()
    {
      && i <= |shards| == |before| && calls == Sizes(before[..i])
      && RetainedTo(before, ids, f, i, Queues(), IdRows())
      && RetainRow(Queues(), i, calls, f, dropped) == outcome
    }

    /** One shard's turn. */
    method RetainTurn(ghost before: Row<K, V>, ghost ids: seq<seq<nat>>, f: Closure<K, V>, i: nat, calls: nat,
                      dropped: seq<Entry<K, V>>, ghost outcome: RowOutcome<K, V>)
      returns (calls': nat, aborted: bool, dropped': seq<Entry<K, V>>)
      requires Valid() && i < |shards| && Passing(before, ids, f, i, calls, dropped, outcome)
      modifies shards, TagArrays(), Arenas()
      ensures Valid() && StatsRow() == old(StatsRow())
      ensures !aborted ==> Passing(before, ids, f, i + 1, calls', dropped', outcome)
      ensures aborted ==> outcome == RowAborted(Queues(), dropped') && StoppedAt(before, ids, f, i, Queues(), IdRows())
    {
      hide Sound, Route, Sieve.Retain, RetainRow, Layout, AllValid, Caps, Queues, IdRows, RetainedTo, StoppedAt;
      hide KeptRemapped, StatsRow;
      RetainSound(Queues(), Caps(), Route(), i, From(f, calls));
      RetainRowStep(Queues(), i, calls, f, dropped);
      ghost var qs, now := Queues(), IdRows();
      var n, d;
      n, aborted, d := RetainShard(i, From(f, calls));
      RemappedLater(qs[i], now[i], calls, f, IdRows()[i]);
      RetainedOn(before, ids, f, i, qs, now, Queues()[i], IdRows()[i]);
      FlatSnoc(before, i);
      calls' := calls + n;
      dropped' := dropped + d;
    }

    lemma PassStarts(f: Closure<K, V>)
      requires Valid()
      ensures Passing(Queues(), IdRows(), f, 0, 0, [], RetainRow(Queues(), 0, 0, f, []))
    {
      hide Sound, Route, RetainRow, Layout, AllValid, Caps, Queues, IdRows, RetainedTo;
      RetainStarts(Queues(), IdRows(), f);
    }

    lemma PassEnds(before: Row<K, V>, ids: seq<seq<nat>>, f: Closure<K, V>, calls: nat, dropped: seq<Entry<K, V>>,
                   outcome: RowOutcome<K, V>)
      requires Valid() && Passing(before, ids, f, |shards|, calls, dropped, outcome)
      ensures outcome == RowDone(Queues(), dropped) && StoppedAt(before, ids, f, |shards|, Queues(), IdRows())
    {
      hide Sound, Route, RetainRow, Layout, AllValid, Caps, Queues, IdRows, RetainedTo, StoppedAt;
      RetainedToEnd(before, ids, f, |shards|, Queues(), IdRows());
      RetainRowEnd(Queues(), |shards|, calls, f, dropped);
    }

    /**
     Retains shard by shard. If `f` aborts, the shard it aborted in is emptied; earlier
     shards keep their survivors, their ids remapped, and later ones are not touched.
     */
    method Retain(f: Closure<K, V>) returns (aborted: bool, dropped: seq<Entry<K, V>>, ghost stopped: nat)
      requires Valid()
      modifies shards, TagArrays(), Arenas()
      ensures Valid() && StatsRow() == old(StatsRow())
      ensures RetainRow(old(Queues()), 0, 0, f, []) ==
              if aborted then RowAborted(Queues(), dropped) else RowDone(Queues(), dropped)
      ensures stopped <= |shards| && (aborted <==> stopped < |shards|)
      ensures StoppedAt(old(Queues()), old(IdRows()), f, stopped, Queues(), IdRows())
    {
      hide Sound, Route, RetainRow, Layout, AllValid, Caps, Queues, IdRows, StoppedAt, Passing, StatsRow;
      ghost var before, ids := Queues(), IdRows();
      ghost var outcome := RetainRow(before, 0, 0, f, []);
      var calls := 0;
      aborted, dropped, stopped := false, [], |shards|;
      PassStarts(f);
      for i := 0 to |shards|
        invariant Valid() && Passing(before, ids, f, i, calls, dropped, outcome)
        invariant StatsRow() == old(StatsRow())
      {
        calls, aborted, dropped := RetainTurn(before, ids, f, i, calls, dropped, outcome);
        if aborted {
          stopped := i;
          return;
        }
      }
      PassEnds(before, ids, f, calls, dropped, outcome);
    }

    method Capacity() returns (r: nat)
      ensures r == Total(Caps())
    {
      r := 0;
      ghost var caps := Caps();
      for i := 0 to |shards|
        invariant r == Total(caps[..i])
      {
        assert caps[..i + 1][..i] == caps[..i];
        r := r + shards[i].Capacity();
      }
      assert caps[..|shards|] == caps;
    }

    method Len() returns (r: nat)
      requires Valid()
      ensures r == Sizes(Queues()) == |Flat(Queues())|
    {
      hide Dense.Shard.Valid, Sound, Route;
      r := 0;
      ghost var qs := Queues();
      for i := 0 to |shards|
        invariant r == Sizes(qs[..i]) == |Flat(qs[..i])|
      {
        shards[i].Lengths();
        FlatSnoc(qs, i);
        r := r + shards[i].len;
      }
      assert qs[..|shards|] == qs;
    }
  }

  /** The ids of the entries the closure, called `calls` times before, keeps, remapped. */
  ghost predicate KeptRemapped<K, V>(q: Queue<K, V>, ids: seq<nat>, calls: nat, f: Closure<K, V>, now: seq<nat>) {
    |ids| == |q.items| && Remaps(KeptIds(q.items, ids, calls, f), now)
  }

  lemma RemappedLater<K, V>(q: Queue<K, V>, ids: seq<nat>, calls: nat, f: Closure<K, V>, now: seq<nat>)
    ensures KeptRemapped(q, ids, 0, From(f, calls), now) ==> KeptRemapped(q, ids, calls, f, now)
  {
    hide KeptIds;
    if |ids| == |q.items| { LaterIds(q.items, ids, 0, calls, f); }
  }

  /** In each of the first `n` shards the ids are the survivors', remapped. */
  ghost predicate IdsRetained<K, V>(
    before: Row<K, V>, ids: seq<seq<nat>>, f: Closure<K, V>, n: nat, now: seq<seq<nat>>)
  {
    && n <= |before| == |ids| == |now|
    && forall j | 0 <= j < n :: KeptRemapped(before[j], ids[j], Sizes(before[..j]), f, now[j])
  }

  /** The shards before `stopped` have kept what `f` says, and those after it are as they were. */
  ghost predicate StoppedAt<K, V>(
    before: Row<K, V>, ids: seq<seq<nat>>, f: Closure<K, V>, stopped: nat, after: Row<K, V>, now: seq<seq<nat>>)
  {
    && IdsRetained(before, ids, f, stopped, now) && |after| == |before|
    && forall j | stopped < j < |before| :: after[j] == before[j] && now[j] == ids[j]
  }

  /** The shards before `i` have kept what `f` says, and the others are as they were. */
  ghost predicate RetainedTo<K, V>(
    before: Row<K, V>, ids: seq<seq<nat>>, f: Closure<K, V>, i: nat, after: Row<K, V>, now: seq<seq<nat>>)
  {
    StoppedAt(before, ids, f, i, after, now) && (i < |before| ==> after[i] == before[i] && now[i] == ids[i])
  }

  lemma RetainStarts<K, V>(qs: Row<K, V>, ids: seq<seq<nat>>, f: Closure<K, V>)
    requires |qs| == |ids|
    ensures RetainedTo(qs, ids, f, 0, qs, ids) && Sizes(qs[..0]) == 0
  {
  }

  lemma RetainedOn<K, V>(
    before: Row<K, V>, ids: seq<seq<nat>>, f: Closure<K, V>, i: nat, qs: Row<K, V>, now: seq<seq<nat>>,
    q: Queue<K, V>, row: seq<nat>)
    requires RetainedTo(before, ids, f, i, qs, now) && i < |before|
    ensures |qs| == |before| == |ids| == |now| && qs[i] == before[i]
    ensures StoppedAt(before, ids, f, i, qs[i := q], now[i := row])
    ensures KeptRemapped(qs[i], now[i], Sizes(before[..i]), f, row) ==>
            RetainedTo(before, ids, f, i + 1, qs[i := q], now[i := row])
  {
    hide KeptRemapped;
  }

  lemma RetainedToEnd<K, V>(
    before: Row<K, V>, ids: seq<seq<nat>>, f: Closure<K, V>, i: nat, after: Row<K, V>, now: seq<seq<nat>>)
    requires RetainedTo(before, ids, f, i, after, now)
    ensures StoppedAt(before, ids, f, i, after, now)
  {
  }

  /** A fresh row of empty shards, which share nothing. */
  ghost predicate FreshRow<K, V>(built: seq<Dense.Shard<K, V>>, n: nat, hasher: K -> bv64)
    reads built, (set s | s in built :: s.tags), (set s | s in built :: s.entries)
  {
    && |built| == n
    && (forall i | 0 <= i < n :: built[i].Valid() && built[i].queue == Empty() && built[i].scheme.hasher == hasher)
    && (forall i | 0 <= i < n :: built[i].Counted() == NOTHING)
    && forall i, j | 0 <= i < j < n :: built[i].Repr() !! built[j].Repr()
  }

  /** The remainder of the capacity goes to the first shards, one each. */
  method BuildShards<K(==), V>(capacity: nat, shards: nat, shift: bv16, hasher: K -> bv64)
    returns (built: seq<Dense.Shard<K, V>>)
    requires Accepts(capacity, shards) && Dense.SlotShift(shift)
    ensures FreshRow(built, shards, hasher) && |built| == shards
    ensures forall i | 0 <= i < shards :: built[i].Capacity() == ShareOf(capacity, shards, i)
    ensures forall s | s in built :: fresh(s) && fresh(s.tags) && fresh(s.entries)
  {
    hide Dense.Shard.Valid, Dense.Shard.Shape;
    var base, extra := capacity / shards, capacity % shards;
    built := [];
    for i := 0 to shards
      invariant FreshRow(built, i, hasher)
      invariant forall j | 0 <= j < i :: built[j].Capacity() == ShareOf(capacity, shards, j)
      invariant forall s | s in built :: fresh(s.Repr())
    {
      assert 1 <= ShareOf(capacity, shards, i) <= MAX_PER_SHARD;
      var s := new Dense.Shard<K, V>(base + if i < extra then 1 else 0, shift, hasher);
      built := built + [s];
    }
  }

  /** Runs calls on a fresh cache, and records what each of them answers. */
  method RunCache<K(==, !new), V>(capacity: nat, shift: bv16, hasher: K -> bv64, hasAvx2: bool, calls: seq<Call<K, V>>)
    returns (c: Cache<K, V>, answers: seq<Reply<K, V>>)
    requires 0 < capacity < Pow2(64) && Dense.SlotShift(shift)
    ensures c.Valid() && c.hasher == hasher && Total(c.Caps()) == capacity && |answers| == |calls|
    ensures Sound(Emptied<K, V>(|c.shards|), c.Caps(), c.Route())
    ensures var (qs, replies) := Play(Emptied(|c.shards|), c.Caps(), c.Route(), calls);
      c.Queues() == qs && forall j | 0 <= j < |calls| :: answers[j] == Seen(calls[j], replies[j])
    ensures Sum(c.StatsRow()) == Charges(Emptied<K, V>(|c.shards|), c.Caps(), c.Route(), calls)
  {
    hide Cache.Valid, Sound, Step, Cache.Route, Sum, Charges, Cache.StatsRow;
    FewShardsWorks(capacity);
    c := new Cache<K, V>(capacity, FewShards(capacity), shift, hasher, hasAvx2);
    answers := PlayOn(c, calls);
    NothingPlus(Charges(Emptied<K, V>(|c.shards|), c.Caps(), c.Route(), calls));
  }

  method PlayOn<K(==, !new), V>(c: Cache<K, V>, calls: seq<Call<K, V>>) returns (answers: seq<Reply<K, V>>)
    requires c.Valid()
    modifies c.shards, c.TagArrays(), c.Arenas()
    ensures c.Valid() && |answers| == |calls| && Sound(old(c.Queues()), c.Caps(), c.Route())
    ensures var (qs, replies) := Play(old(c.Queues()), c.Caps(), c.Route(), calls);
      c.Queues() == qs && forall j | 0 <= j < |calls| :: answers[j] == Seen(calls[j], replies[j])
    ensures Sum(c.StatsRow()) ==
            Plus(old(Sum(c.StatsRow())), Charges(old(c.Queues()), c.Caps(), c.Route(), calls))
  {
    hide Sound, Step, Cache.Route, Cache.Layout, Cache.AllValid, Sum, Cache.StatsRow, Plus, Charge, FoundBy;
    ghost var before, spent := c.Queues(), Sum(c.StatsRow());
    answers := [];
    PlusNothing(spent);
    for i := 0 to |calls|
      invariant c.Valid() && |answers| == i
      invariant var (qs, replies) := Play(before, c.Caps(), c.Route(), calls[..i]);
        c.Queues() == qs && forall j | 0 <= j < i :: answers[j] == Seen(calls[j], replies[j])
      invariant Sum(c.StatsRow()) == Plus(spent, Charges(before, c.Caps(), c.Route(), calls[..i]))
    {
      assert calls[..i + 1][..i] == calls[..i];
      ghost var now := c.Queues();
      var answer := CallOnce(c, calls[i]);
      PlusTwice(spent, Charges(before, c.Caps(), c.Route(), calls[..i]),
                Charge(calls[i], Step(now, c.Caps(), c.Route(), calls[i]).0,
                       FoundBy(now, c.Caps(), c.Route(), calls[i])));
      answers := answers + [answer];
    }
    assert calls[..|calls|] == calls;
  }

  /** What one call leaves: the row, the answer and the counters. */
  ghost predicate Made<K(!new), V>(
    qs: Row<K, V>, caps: seq<nat>, route: Routing<K>, call: Call<K, V>,
    answer: Reply<K, V>, now: Row<K, V>, spent: Stats, spentNow: Stats)
    requires Sound(qs, caps, route)
  {
    var (r, row) := Step(qs, caps, route, call);
    && answer == Seen(call, r) && now == row
    && spentNow == Plus(spent, Charge(call, r, FoundBy(qs, caps, route, call)))
  }

  method CallOnce<K(==, !new), V>(c: Cache<K, V>, call: Call<K, V>) returns (answer: Reply<K, V>)
    requires c.Valid()
    modifies c.shards, c.TagArrays(), c.Arenas()
    ensures c.Valid() && Sound(old(c.Queues()), c.Caps(), c.Route())
    ensures Made(old(c.Queues()), c.Caps(), c.Route(), call, answer, c.Queues(),
                 old(Sum(c.StatsRow())), Sum(c.StatsRow()))
  {
    hide Dense.Shard.Valid, Sound, Cache.Layout, Cache.AllValid, Step, Made;
    if call.Filter? || call.Sift? || call.Wipe? {
      answer := CallAll(c, call);
    } else {
      answer := CallOne(c, call);
    }
  }

  /** A call on one key. */
  method CallOne<K(==, !new), V>(c: Cache<K, V>, call: Call<K, V>) returns (answer: Reply<K, V>)
    requires c.Valid() && !call.Filter? && !call.Sift? && !call.Wipe?
    modifies c.shards, c.TagArrays(), c.Arenas()
    ensures c.Valid() && Sound(old(c.Queues()), c.Caps(), c.Route())
    ensures Made(old(c.Queues()), c.Caps(), c.Route(), call, answer, c.Queues(),
                 old(Sum(c.StatsRow())), Sum(c.StatsRow()))
  {
    hide Dense.Shard.Valid, Sound, Cache.Layout, Cache.AllValid;
    hide NextIds, IdsWithout, Dense.Shard.IdRow, Sum, Plus, Cache.StatsRow;
    PlusNothing(Sum(c.StatsRow()));
    var value, evicted := None, None;
    match call {
      case Look(k) => value := c.Get(k);
      case Probe(k) => value := c.Peek(k);
      case Write(k, v) => evicted := c.Insert(k, v);
      case Delete(k) => value := c.Remove(k);
      case LookOrWrite(k, v) => var r := c.GetOrInsertWith(k, () => v); value := Some(r);
      case Amend(k, promote, g) => value := c.Change(k, promote, g);
      case _ =>
    }
    answer := Plain(value, evicted);
  }

  /** A retain by a predicate. */
  method RetainPure<K(==, !new), V>(c: Cache<K, V>, p: (K, V) -> bool)
    requires c.Valid()
    modifies c.shards, c.TagArrays(), c.Arenas()
    ensures c.Valid() && c.Queues() == FilterAll(old(c.Queues()), p) && c.StatsRow() == old(c.StatsRow())
  {
    hide Dense.Shard.Valid, Sound, Cache.Layout, Cache.AllValid, RetainRow, FilterAll;
    hide StoppedAt, Cache.IdRows, Cache.StatsRow, Cache.Route, Cache.Queues;
    ghost var qs := c.Queues();
    assert FilterAll(qs, p)[..0] + qs[0..] == qs;
    RetainRowFilters(qs, c.Caps(), c.Route(), qs, 0, 0, p, []);
    var _, _, _ := c.Retain(Pure(p));
  }

  /** A call on all shards. */
  method CallAll<K(==, !new), V>(c: Cache<K, V>, call: Call<K, V>) returns (answer: Reply<K, V>)
    requires c.Valid() && (call.Filter? || call.Sift? || call.Wipe?)
    modifies c.shards, c.TagArrays(), c.Arenas()
    ensures c.Valid() && Sound(old(c.Queues()), c.Caps(), c.Route())
    ensures Made(old(c.Queues()), c.Caps(), c.Route(), call, answer, c.Queues(),
                 old(Sum(c.StatsRow())), Sum(c.StatsRow()))
  {
    hide Dense.Shard.Valid, Sound, Cache.Layout, Cache.AllValid, RetainRow, FilterAll;
    hide StoppedAt, Dense.Shard.IdRow, Cache.IdRows, Sum, Plus, Cache.StatsRow, KeptRow, Flat, Emptied, Cache.Route;
    PlusNothing(Sum(c.StatsRow()));
    match call {
      case Sift(f) => var _, _, _ := c.Retain(f);
      case Filter(p) => RetainPure(c, p);
      case Wipe => var _ := c.Clear();
      case _ =>
    }
    answer := Plain(None, None);
  }

  // ---- an abort that leaves an entry ----

  /** The first entry of a shard. */
  lemma FirstEntry(key: int, value: int)
    ensures Sieve.Insert(Empty<int, int>(), 1, key, value) == (None, Queue([Item(key, value, false)], 0))
  {
    hide Swept;
    assert IndexOf<int, int>([], key) == 0;
    assert Empty<int, int>().items + [Item(key, value, false)] == [Item(key, value, false)];
  }

  function Parity(key: int): bv64 { if key % 2 == 0 then 0 else 1 }

  /** Two shards of one entry each. */
  lemma TwoOfOne()
    ensures Accepts(2, 2) && 2 < Pow2(64) && ShareOf(2, 2, 0) == ShareOf(2, 2, 1) == 1
  {
    assert Pow2(0) == 1 && Pow2(1) == 2;
    Pow2Grows(2, 64);
  }

  lemma ByParity(c: Cache<int, int>, key: int)
    requires c.Layout() && |c.shards| == 2 && c.hasher == Parity
    ensures c.Route()(key) == key % 2
  {
    hide RouteOf, Value;
    c.InRange();
    ValueOfBit();
  }

  lemma ValueOfBit()
    ensures Value(0) == 0 && Value(1) == 1
  {
    hide Half, Odd;
    assert !Odd(0) && Odd(1) && Half(1) == 0 by { HalfOfBit(); }
    NoLowBits(63);
    NoLowBits(64);
  }

  lemma HalfOfBit()
    ensures !Odd(0) && Odd(1) && Half(0) == Half(1) == 0
  {
  }

  lemma {:induction false} NoLowBits(n: nat)
    ensures LowBits(0, n) == 0
  {
    hide Half, Odd;
    HalfOfBit();
    if n > 0 { NoLowBits(n - 1); }
  }

  method InsertFirst(c: Cache<int, int>, key: int, value: int)
    requires c.Valid() && |c.shards| == 2 && c.hasher == Parity
    requires c.Caps() == [1, 1] && c.Queues()[key % 2] == Empty()
    modifies c.shards, c.TagArrays(), c.Arenas()
    ensures c.Valid() && c.Queues() == old(c.Queues())[key % 2 := Queue([Item(key, value, false)], 0)]
  {
    hide Dense.Shard.Valid, Sieve.Insert, Sound, Cache.Route;
    ByParity(c, key);
    FirstEntry(key, value);
    var _ := c.Insert(key, value);
  }

  function Stops(calls: nat, key: int, value: int): Verdict<int> { Abort(value) }

  lemma AbortsAtOnce(qs: Row<int, int>)
    requires qs == [Queue([Item(2, 20, false)], 0), Queue([Item(1, 10, false)], 0)]
    ensures RetainRow(qs, 0, 0, Stops, []) == RowAborted([Empty(), Queue([Item(1, 10, false)], 0)], [Entry(2, 20)])
  {
    hide RetainRow;
    var item := qs[0].items[0];
    assert From(Stops, 0)(0, item.key, item.value) == Abort(20);
    assert Entries([item]) == [Entry(2, 20)];
    RetainStep(qs[0], 0, 0, From(Stops, 0), []);
    assert qs[0].items[0 := item] == [item];
    RetainRowStep(qs, 0, 0, Stops, []);
  }

  /** Two shards, an entry in each. */
  method TwoEntries() returns (c: Cache<int, int>)
    ensures c.Valid() && fresh(c) && fresh(c.shards) && fresh(c.TagArrays()) && fresh(c.Arenas())
    ensures c.Queues() == [Queue([Item(2, 20, false)], 0), Queue([Item(1, 10, false)], 0)]
  {
    hide Cache.Valid, Accepts, Pow2, Cache.Route, Cache.Layout, Sound, Dense.Shard.Valid, ShareOf;
    hide Cache.IdRows, Cache.AllValid, Total;
    TwoOfOne();
    c := new Cache<int, int>(2, 2, 5, Parity, false);
    InsertFirst(c, 2, 20);
    InsertFirst(c, 1, 10);
  }

  /** A closure that aborts at once leaves the second shard's entry in the cache. */
  method AbortLeavesOne() returns (c: Cache<int, int>, aborted: bool, dropped: seq<Entry<int, int>>)
    ensures c.Valid() && aborted && dropped == [Entry(2, 20)]
    ensures c.Queues() == [Empty(), Queue([Item(1, 10, false)], 0)]
  {
    hide Cache.Valid, StoppedAt, Cache.IdRows, RetainRow, Cache.Queues;
    c := TwoEntries();
    AbortsAtOnce(c.Queues());
    ghost var stopped;
    aborted, dropped, stopped := c.Retain(Stops);
  }
}

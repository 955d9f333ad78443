/**
 The retain of a sharded cache as one pass over the entries of all its shards: call number
 `n` of the closure is on the `n`-th entry, whichever shard that is in, and every shard's
 queue, its order, flags and hand, is what its stretch of the pass leaves.
 */
module RowPass {
  import opened Sieve
  import opened SieveLaws
  import opened Sifting
  import opened OnePass
  import opened Sharded
  import opened Remap

  /** The entries of all shards, one shard after the other. */
  function AllItems<K, V>(qs: Row<K, V>): seq<Item<K, V>> {
    if qs == [] then [] else qs[0].items + AllItems(qs[1..])
  }

  // ---- a closure that has been called before ----

  lemma {:induction false} LaterCalls<K, V>(items: seq<Item<K, V>>, a: nat, n: nat, f: Closure<K, V>)
    ensures KeptItems(items, a, From(f, n)) == KeptItems(items, n + a, f)
    ensures Drops(items, a, From(f, n)) == Drops(items, n + a, f)
    ensures FromAbort(items, a, From(f, n)) == FromAbort(items, n + a, f)
    ensures Aborts(items, a, From(f, n)) == Aborts(items, n + a, f)
    ensures KeptOf(items, a, From(f, n)) == KeptOf(items, n + a, f)
    ensures AsLeft(items, a, From(f, n)) == AsLeft(items, n + a, f)
  {
    if items != [] { LaterCalls(items[1..], a + 1, n, f); }
  }

  lemma {:induction false} LaterIds<K, V>(items: seq<Item<K, V>>, ids: seq<nat>, a: nat, n: nat, f: Closure<K, V>)
    requires |ids| == |items|
    ensures KeptIds(items, ids, a, From(f, n)) == KeptIds(items, ids, n + a, f)
  {
    if items != [] { LaterIds(items[1..], ids[1..], a + 1, n, f); }
  }

  /** One shard, after `n` calls on the shards before it. */
  lemma ShardPasses<K, V>(q: Queue<K, V>, n: nat, f: Closure<K, V>)
    requires Valid(q)
    ensures Retain(q, From(f, n)) == Passed(q, n, f)
  {
    hide Retain;
    RetainIsOnePass(q, From(f, n));
    LaterCalls(q.items, 0, n, f);
    LaterCalls(q.items[..q.hand], 0, n, f);
  }

  // ---- one stretch after another ----

  lemma Assoc<T>(x: seq<T>, y: seq<T>, z: seq<T>)
    ensures x + (y + z) == x + y + z
  {
  }

  lemma {:induction false} KeptTwo<K, V>(a: seq<Item<K, V>>, b: seq<Item<K, V>>, n: nat, f: Closure<K, V>)
    ensures Aborts(a + b, n, f) <==> Aborts(a, n, f) || Aborts(b, n + |a|, f)
    ensures KeptItems(a + b, n, f) ==
            KeptItems(a, n, f) + if Aborts(a, n, f) then [] else KeptItems(b, n + |a|, f)
  {
    if a == [] {
      assert a + b == b && [] + KeptItems(b, n, f) == KeptItems(b, n, f);
    } else {
      var tail, all := a[1..], a + b;
      assert all[1..] == tail + b && all[0] == a[0];
      KeptTwo(tail, b, n + 1, f);
      var low, high := KeptItems(tail, n + 1, f), if Aborts(tail, n + 1, f) then [] else KeptItems(b, n + |a|, f);
      match f(n, a[0].key, a[0].value)
      case Keep(v) => Assoc([a[0].(value := v)], low, high);
      case Discard(_) =>
      case Abort(_) =>
    }
  }

  lemma {:induction false} DropsTwo<K, V>(a: seq<Item<K, V>>, b: seq<Item<K, V>>, n: nat, f: Closure<K, V>)
    ensures Drops(a + b, n, f) == Drops(a, n, f) + if Aborts(a, n, f) then [] else Drops(b, n + |a|, f)
  {
    if a == [] {
      assert a + b == b && [] + Drops(b, n, f) == Drops(b, n, f);
    } else {
      var tail, all := a[1..], a + b;
      assert all[1..] == tail + b && all[0] == a[0];
      DropsTwo(tail, b, n + 1, f);
      var low, high := Drops(tail, n + 1, f), if Aborts(tail, n + 1, f) then [] else Drops(b, n + |a|, f);
      match f(n, a[0].key, a[0].value)
      case Keep(_) =>
      case Discard(v) => Assoc([Entry(a[0].key, v)], low, high);
      case Abort(_) =>
    }
  }

  lemma LeftHead<K, V>(items: seq<Item<K, V>>, n: nat, f: Closure<K, V>)
    requires items != []
    ensures var verdict := f(n, items[0].key, items[0].value);
      AsLeft(items, n, f) == [Entry(items[0].key, verdict.value)] +
      if verdict.Abort? then Entries(items[1..]) else AsLeft(items[1..], n + 1, f)
  {
    hide Entries;
  }

  lemma {:induction false} LeftTwo<K, V>(a: seq<Item<K, V>>, b: seq<Item<K, V>>, n: nat, f: Closure<K, V>)
    ensures AsLeft(a + b, n, f) ==
            AsLeft(a, n, f) + if Aborts(a, n, f) then Entries(b) else AsLeft(b, n + |a|, f)
  {
    hide Entries, AsLeft;
    if a == [] {
      EmptyLeft<K, V>(n, f);
      assert a + b == b && [] + AsLeft(b, n, f) == AsLeft(b, n, f);
    } else {
      var tail, all := a[1..], a + b;
      assert all[1..] == tail + b && all[0] == a[0];
      LeftHead(a, n, f);
      LeftHead(all, n, f);
      LeftTwo(tail, b, n + 1, f);
      EntriesTwo(tail, b);
      var first := [Entry(a[0].key, f(n, a[0].key, a[0].value).value)];
      if f(n, a[0].key, a[0].value).Abort? {
        Assoc(first, Entries(tail), Entries(b));
      } else {
        Assoc(first, AsLeft(tail, n + 1, f), if Aborts(tail, n + 1, f) then Entries(b) else AsLeft(b, n + |a|, f));
      }
    }
  }

  lemma EntriesTwo<K, V>(a: seq<Item<K, V>>, b: seq<Item<K, V>>)
    ensures Entries(a + b) == Entries(a) + Entries(b)
  {
  }

  lemma {:induction false} KeptOfIs<K, V>(items: seq<Item<K, V>>, n: nat, f: Closure<K, V>)
    ensures KeptOf(items, n, f) == Entries(KeptItems(items, n, f))
  {
    if items != [] {
      KeptOfIs(items[1..], n + 1, f);
      if f(n, items[0].key, items[0].value).Keep? {
        EntriesTwo([KeptItems(items, n, f)[0]], KeptItems(items[1..], n + 1, f));
      }
    }
  }

  /** Kept and dropped by a stretch and the one after it. */
  lemma TwoStretches<K, V>(a: seq<Item<K, V>>, b: seq<Item<K, V>>, n: nat, f: Closure<K, V>)
    ensures Aborts(a + b, n, f) <==> Aborts(a, n, f) || Aborts(b, n + |a|, f)
    ensures KeptItems(a + b, n, f) ==
            KeptItems(a, n, f) + if Aborts(a, n, f) then [] else KeptItems(b, n + |a|, f)
    ensures Drops(a + b, n, f) == Drops(a, n, f) + if Aborts(a, n, f) then [] else Drops(b, n + |a|, f)
    ensures KeptOf(a + b, n, f) == KeptOf(a, n, f) + if Aborts(a, n, f) then [] else KeptOf(b, n + |a|, f)
  {
    hide KeptOf, KeptItems, Drops, Aborts;
    KeptTwo(a, b, n, f);
    DropsTwo(a, b, n, f);
    KeptOfIs(a, n, f);
    KeptOfIs(b, n + |a|, f);
    KeptOfIs(a + b, n, f);
  }

  ghost predicate AllValid<K, V>(qs: Row<K, V>) { forall i | 0 <= i < |qs| :: Valid(qs[i]) }

  /** What becomes of the shards when the pass over `qs` ends in shard `stopped`, or at the end. */
  ghost predicate Ends<K, V>(qs: Row<K, V>, f: Closure<K, V>, calls: nat, stopped: nat, row: Row<K, V>)
    requires AllValid(qs)
  {
    && stopped <= |qs| == |row|
    && (forall i | 0 <= i < stopped ::
          Passed(qs[i], calls + |AllItems(qs[..i])|, f) ==
          Done(row[i], Drops(qs[i].items, calls + |AllItems(qs[..i])|, f)))
    && (stopped < |qs| ==> Aborts(qs[stopped].items, calls + |AllItems(qs[..stopped])|, f) && row[stopped] == Empty())
    && forall i | stopped < i < |qs| :: row[i] == qs[i]
  }

  /** What is dropped besides the discarded entries: the shard the closure aborted in. */
  ghost function Spilled<K, V>(qs: Row<K, V>, f: Closure<K, V>, calls: nat, stopped: nat): seq<Entry<K, V>>
    requires stopped <= |qs|
  {
    if stopped == |qs| then []
    else
      var n := calls + |AllItems(qs[..stopped])|;
      Entries(KeptItems(qs[stopped].items, n, f)) + FromAbort(qs[stopped].items, n, f)
  }

  /** How many entries come before shard `i`, without the first one and with it. */
  lemma FirstShard<K, V>(qs: Row<K, V>, i: nat)
    requires i <= |qs|
    ensures |AllItems(qs[..i])| == if i == 0 then 0 else |qs[0].items| + |AllItems(qs[1..][..i - 1])|
  {
    if i > 0 { assert qs[..i][1..] == qs[1..][..i - 1]; }
  }

  /** The first shard, then the rest of the row. */
  lemma EndsOn<K, V>(
    qs: Row<K, V>, f: Closure<K, V>, calls: nat, q: Queue<K, V>, stopped: nat, row: Row<K, V>)
    requires AllValid(qs) && qs != [] && AllValid(qs[1..])
    requires Passed(qs[0], calls, f) == Done(q, Drops(qs[0].items, calls, f))
    requires Ends(qs[1..], f, calls + |qs[0].items|, stopped, row)
    ensures Ends(qs, f, calls, stopped + 1, [q] + row)
    ensures Spilled(qs, f, calls, stopped + 1) == Spilled(qs[1..], f, calls + |qs[0].items|, stopped)
  {
    hide Passed, KeptItems, FromAbort, Aborts, Drops, AllItems;
    var all, m, rest := [q] + row, calls + |qs[0].items|, qs[1..];
    forall i | 0 <= i < stopped + 1
      ensures Passed(qs[i], calls + |AllItems(qs[..i])|, f) ==
              Done(all[i], Drops(qs[i].items, calls + |AllItems(qs[..i])|, f))
    {
      FirstShard(qs, i);
      if i > 0 {
        assert rest[i - 1] == qs[i] && all[i] == row[i - 1];
        assert calls + |AllItems(qs[..i])| == m + |AllItems(rest[..i - 1])|;
      }
    }
    FirstShard(qs, stopped + 1);
    if stopped < |rest| { assert rest[stopped] == qs[stopped + 1] && all[stopped + 1] == row[stopped]; }
    forall i | stopped + 1 < i < |qs| ensures all[i] == qs[i] { assert all[i] == row[i - 1] == rest[i - 1]; }
  }

  /** How the pass from shard `i` on ends, and what it keeps and drops. */
  ghost predicate PassesRow<K, V>(
    qs: Row<K, V>, i: nat, calls: nat, f: Closure<K, V>, dropped: seq<Entry<K, V>>, stopped: nat)
    requires AllValid(qs) && i <= |qs|
  {
    var o, rest := RetainRow(qs, i, calls, f, dropped), qs[i..];
    && AllValid(rest) && o.row[..i] == qs[..i] && stopped <= |rest| && Ends(rest, f, calls, stopped, o.row[i..])
    && (o.RowDone? <==> stopped == |rest|)
    && o.dropped == dropped + Drops(AllItems(rest), calls, f) + Spilled(rest, f, calls, stopped)
    && KeptRow(qs, i, calls, f) == KeptOf(AllItems(rest), calls, f)
  }

  lemma {:induction false} PassRow<K, V>(
    qs: Row<K, V>, i: nat, calls: nat, f: Closure<K, V>, dropped: seq<Entry<K, V>>) returns (stopped: nat)
    requires AllValid(qs) && i <= |qs|
    ensures PassesRow(qs, i, calls, f, dropped, stopped)
    decreases |qs| - i
  {
    hide RetainRow, KeptRow, Retain, Passed, KeptItems, FromAbort, Aborts, Drops, KeptOf, Ends, Spilled;
    if i == |qs| {
      RetainRowEnd(qs, i, calls, f, dropped);
      KeptRowEnd(qs, i, calls, f);
      stopped := 0;
      NothingLeft(qs[i..], calls, f);
      assert dropped + [] + [] == dropped;
    } else {
      hide PassesRow;
      var o := Retain(qs[i], From(f, calls));
      if o.Done? {
        PassedValid(qs[i], From(f, calls));
        var m := PassRow(qs[i := o.queue], i + 1, calls + |qs[i].items|, f, dropped + o.dropped);
        stopped := m + 1;
        ShardOn(qs, i, calls, f, dropped, m);
      } else {
        stopped := 0;
        ShardStops(qs, i, calls, f, dropped);
      }
    }
  }

  lemma ShardOn<K, V>(
    qs: Row<K, V>, i: nat, calls: nat, f: Closure<K, V>, dropped: seq<Entry<K, V>>, m: nat)
    requires AllValid(qs) && i < |qs| && Retain(qs[i], From(f, calls)).Done?
    requires var o := Retain(qs[i], From(f, calls)); var next := qs[i := o.queue];
      AllValid(next) && PassesRow(next, i + 1, calls + |qs[i].items|, f, dropped + o.dropped, m)
    ensures PassesRow(qs, i, calls, f, dropped, m + 1)
  {
    hide RetainRow, KeptRow, Retain, Passed, KeptItems, FromAbort, Aborts, Drops, KeptOf, Ends, Spilled, AllItems;
    var rest, n := qs[i..], calls + |qs[i].items|;
    var o := Retain(qs[i], From(f, calls));
    var next := qs[i := o.queue];
    var r := RetainRow(next, i + 1, n, f, dropped + o.dropped).row;
    RowHead(qs, i);
    assert next[i + 1..] == qs[i + 1..];
    RetainRowStep(qs, i, calls, f, dropped);
    KeptRowStep(qs, i, calls, f);
    ShardPasses(qs[i], calls, f);
    LaterCalls(qs[i].items, 0, calls, f);
    PassedIs(qs[i], calls, f);
    TwoStretches(qs[i].items, AllItems(rest[1..]), calls, f);
    KeptLater(qs, next, i + 1, n, f);
    EndsOn(rest, f, calls, o.queue, m, r[i + 1..]);
    RowJoins(qs, i, o.queue, r);
    Chained(dropped, o.dropped, Drops(AllItems(rest[1..]), n, f), Spilled(rest, f, calls, m + 1));
  }

  lemma RowHead<K, V>(qs: Row<K, V>, i: nat)
    requires i < |qs|
    ensures qs[i..] != [] && qs[i..][0] == qs[i] && qs[i..][1..] == qs[i + 1..]
    ensures AllItems(qs[i..]) == qs[i].items + AllItems(qs[i + 1..])
  {
    assert qs[i..][1..] == qs[i + 1..];
  }

  lemma RowJoins<K, V>(qs: Row<K, V>, i: nat, q: Queue<K, V>, r: Row<K, V>)
    requires i < |qs| == |r| && r[..i + 1] == qs[i := q][..i + 1]
    ensures r[..i] == qs[..i] && r[i..] == [q] + r[i + 1..]
  {
    assert r[..i + 1][..i] == qs[i := q][..i + 1][..i];
    assert r[i] == r[..i + 1][i];
  }

  lemma ShardStops<K, V>(qs: Row<K, V>, i: nat, calls: nat, f: Closure<K, V>, dropped: seq<Entry<K, V>>)
    requires AllValid(qs) && i < |qs| && Retain(qs[i], From(f, calls)).Aborted?
    ensures PassesRow(qs, i, calls, f, dropped, 0)
  {
    hide RetainRow, KeptRow, Retain, Passed, KeptItems, FromAbort, Aborts, Drops, KeptOf, Ends, Spilled, AllItems;
    var rest := qs[i..];
    RowHead(qs, i);
    RetainRowStep(qs, i, calls, f, dropped);
    KeptRowStep(qs, i, calls, f);
    ShardPasses(qs[i], calls, f);
    LaterCalls(qs[i].items, 0, calls, f);
    PassedIs(qs[i], calls, f);
    TwoStretches(qs[i].items, AllItems(rest[1..]), calls, f);
    StopsHere(rest, calls, f);
    var spilled := Entries(KeptItems(qs[i].items, calls, f)) + FromAbort(qs[i].items, calls, f);
    Chained(dropped, Drops(qs[i].items, calls, f), [], spilled);
    assert qs[i := Empty()][i..] == [Empty()] + rest[1..];
  }

  lemma Chained<T>(a: seq<T>, b: seq<T>, d: seq<T>, e: seq<T>)
    ensures a + (b + d) + e == a + b + d + e && a + b + [] + e == a + (b + e) && a + (b + []) + e == a + (b + e)
  {
  }

  lemma PassedIs<K, V>(q: Queue<K, V>, n: nat, f: Closure<K, V>)
    requires Valid(q)
    ensures var o, gone := Passed(q, n, f), Drops(q.items, n, f);
      && (o.Done? <==> !Aborts(q.items, n, f))
      && (o.Done? ==> o.dropped == gone)
      && (o.Aborted? ==> o.dropped == gone + (Entries(KeptItems(q.items, n, f)) + FromAbort(q.items, n, f)))
  {
  }

  lemma PassedValid<K, V>(q: Queue<K, V>, f: Closure<K, V>)
    requires Valid(q)
    ensures Retain(q, f).Done? ==> Valid(Retain(q, f).queue)
  {
    hide RetainFrom;
    RetainKeepsKeys(q, 0, 0, f, []);
  }

  lemma NothingLeft<K, V>(qs: Row<K, V>, calls: nat, f: Closure<K, V>)
    requires qs == []
    ensures AllValid(qs) && Ends(qs, f, calls, 0, []) && Spilled(qs, f, calls, 0) == []
    ensures Drops(AllItems(qs), calls, f) == [] && KeptOf(AllItems(qs), calls, f) == []
  {
  }

  lemma StopsHere<K, V>(qs: Row<K, V>, calls: nat, f: Closure<K, V>)
    requires AllValid(qs) && qs != [] && Aborts(qs[0].items, calls, f)
    ensures Ends(qs, f, calls, 0, [Empty()] + qs[1..])
    ensures Spilled(qs, f, calls, 0) ==
            Entries(KeptItems(qs[0].items, calls, f)) + FromAbort(qs[0].items, calls, f)
  {
    assert qs[..0] == [];
  }

  // ---- the whole row ----

  /**
   A retain over all shards is one pass over all entries: each shard is left what its
   stretch leaves, up to the one the closure aborts in, which is emptied; what is dropped
   is what was discarded, in order, and then that shard.
   */
  lemma RowIsOnePass<K, V>(qs: Row<K, V>, f: Closure<K, V>) returns (stopped: nat)
    requires AllValid(qs)
    ensures var o := RetainRow(qs, 0, 0, f, []);
      && Ends(qs, f, 0, stopped, o.row) && (o.RowDone? <==> stopped == |qs|)
      && o.dropped == Drops(AllItems(qs), 0, f) + Spilled(qs, f, 0, stopped)
      && KeptRow(qs, 0, 0, f) == KeptOf(AllItems(qs), 0, f)
  {
    hide Ends, RetainRow, KeptRow, Drops, Spilled, KeptOf;
    stopped := PassRow(qs, 0, 0, f, []);
    assert qs[0..] == qs;
    var o := RetainRow(qs, 0, 0, f, []);
    assert o.row[0..] == o.row;
    assert [] + Drops(AllItems(qs), 0, f) == Drops(AllItems(qs), 0, f);
  }

  /** If the closure never aborts, the entries left in the row are those of the pass, in order. */
  lemma RowKeeps<K, V>(qs: Row<K, V>, f: Closure<K, V>)
    requires AllValid(qs)
    ensures var o := RetainRow(qs, 0, 0, f, []);
      && (o.RowDone? <==> !Aborts(AllItems(qs), 0, f))
      && (o.RowDone? ==>
            AllItems(o.row) == KeptItems(AllItems(qs), 0, f) && o.dropped == Drops(AllItems(qs), 0, f))
  {
    hide RetainRow, Drops;
    var stopped := RowIsOnePass(qs, f);
    var o := RetainRow(qs, 0, 0, f, []);
    EndsKeep(qs, f, 0, stopped, o.row);
    if o.RowDone? { assert o.dropped == Drops(AllItems(qs), 0, f) + []; }
  }

  lemma {:induction false} EndsKeep<K, V>(
    qs: Row<K, V>, f: Closure<K, V>, calls: nat, stopped: nat, row: Row<K, V>)
    requires AllValid(qs) && Ends(qs, f, calls, stopped, row)
    ensures stopped == |qs| <==> !Aborts(AllItems(qs), calls, f)
    ensures stopped == |qs| ==> AllItems(row) == KeptItems(AllItems(qs), calls, f)
  {
    hide KeptItems, Aborts, Drops, FromAbort;
    if qs == [] {
      assert AllItems(qs) == [];
      EmptyPass<K, V>(calls, f);
    } else {
      TwoStretches(qs[0].items, AllItems(qs[1..]), calls, f);
      assert qs[..0] == [];
      if stopped > 0 {
        EndsRest(qs, f, calls, stopped, row);
        EndsKeep(qs[1..], f, calls + |qs[0].items|, stopped - 1, row[1..]);
        assert row[0].items == KeptItems(qs[0].items, calls, f);
      }
    }
  }

  lemma EmptyPass<K, V>(calls: nat, f: Closure<K, V>)
    ensures !Aborts<K, V>([], calls, f) && KeptItems<K, V>([], calls, f) == []
  {
  }

  lemma EndsRest<K, V>(qs: Row<K, V>, f: Closure<K, V>, calls: nat, stopped: nat, row: Row<K, V>)
    requires AllValid(qs) && qs != [] && stopped > 0 && Ends(qs, f, calls, stopped, row)
    ensures row != [] && !Aborts(qs[0].items, calls, f) && row[0].items == KeptItems(qs[0].items, calls, f)
    ensures AllValid(qs[1..]) && Ends(qs[1..], f, calls + |qs[0].items|, stopped - 1, row[1..])
  {
    hide KeptItems, Aborts, Drops, FromAbort, HandAfter, AllItems;
    var rest, m := qs[1..], calls + |qs[0].items|;
    FirstShard(qs, 0);
    FirstShard(qs, stopped);
    assert Passed(qs[0], calls + |AllItems(qs[..0])|, f) ==
           Done(row[0], Drops(qs[0].items, calls + |AllItems(qs[..0])|, f));
    hide Passed;
    forall i | 0 <= i < stopped - 1
      ensures Passed(rest[i], m + |AllItems(rest[..i])|, f) ==
              Done(row[1..][i], Drops(rest[i].items, m + |AllItems(rest[..i])|, f))
    {
      FirstShard(qs, i + 1);
      assert rest[i] == qs[i + 1] && row[1..][i] == row[i + 1];
      assert calls + |AllItems(qs[..i + 1])| == m + |AllItems(rest[..i])|;
    }
  }

  // ---- nothing is lost over the row ----

  /**
   For every closure, aborting or not, and over all shards: each entry, with the value its
   own call left in it, is in the row afterwards or was dropped, exactly once.
   */
  lemma RowConserves<K, V>(qs: Row<K, V>, f: Closure<K, V>)
    ensures var o := RetainRow(qs, 0, 0, f, []);
      multiset(Flat(o.row)) + multiset(o.dropped) == multiset(AsLeft(AllItems(qs), 0, f))
  {
    hide RetainRow, Flat, AsLeft;
    RowConservesFrom(qs, 0, 0, f, []);
    var o := RetainRow(qs, 0, 0, f, []);
    assert qs[0..] == qs && o.row[0..] == o.row;
  }

  ghost predicate ConservesRow<K, V>(
    qs: Row<K, V>, i: nat, calls: nat, f: Closure<K, V>, dropped: seq<Entry<K, V>>)
    requires i <= |qs|
  {
    var o := RetainRow(qs, i, calls, f, dropped);
    && o.row[..i] == qs[..i]
    && multiset(Flat(o.row[i..])) + multiset(o.dropped) ==
       multiset(AsLeft(AllItems(qs[i..]), calls, f)) + multiset(dropped)
  }

  lemma {:induction false} RowConservesFrom<K, V>(
    qs: Row<K, V>, i: nat, calls: nat, f: Closure<K, V>, dropped: seq<Entry<K, V>>)
    requires i <= |qs|
    ensures ConservesRow(qs, i, calls, f, dropped)
    decreases |qs| - i
  {
    hide RetainRow, Retain, AsLeft, Entries;
    if i == |qs| {
      RetainRowEnd(qs, i, calls, f, dropped);
      EmptyLeft<K, V>(calls, f);
    } else {
      hide ConservesRow;
      var o := Retain(qs[i], From(f, calls));
      if o.Done? {
        RowConservesFrom(qs[i := o.queue], i + 1, calls + |qs[i].items|, f, dropped + o.dropped);
        ConservesOn(qs, i, calls, f, dropped);
      } else {
        ConservesStops(qs, i, calls, f, dropped);
      }
    }
  }

  lemma ShardConserves<K, V>(q: Queue<K, V>, n: nat, f: Closure<K, V>)
    ensures var o := Retain(q, From(f, n));
      && (o.Aborted? <==> Aborts(q.items, n, f))
      && (o.Aborted? ==> multiset(o.dropped) == multiset(AsLeft(q.items, n, f)))
      && (o.Done? ==>
            multiset(Entries(o.queue.items)) + multiset(o.dropped) == multiset(AsLeft(q.items, n, f)))
  {
    hide Retain, AsLeft, Entries, Aborts;
    RetainConserves(q, From(f, n));
    LaterCalls(q.items, 0, n, f);
    AbortsSo(q, From(f, n));
  }

  lemma ConservesOn<K, V>(qs: Row<K, V>, i: nat, calls: nat, f: Closure<K, V>, dropped: seq<Entry<K, V>>)
    requires i < |qs| && Retain(qs[i], From(f, calls)).Done?
    requires var o := Retain(qs[i], From(f, calls));
      ConservesRow(qs[i := o.queue], i + 1, calls + |qs[i].items|, f, dropped + o.dropped)
    ensures ConservesRow(qs, i, calls, f, dropped)
  {
    hide RetainRow, Retain, AsLeft, Entries, AllItems, Aborts, Flat;
    var o := Retain(qs[i], From(f, calls));
    var next := qs[i := o.queue];
    RowHead(qs, i);
    assert next[i + 1..] == qs[i + 1..];
    RetainRowStep(qs, i, calls, f, dropped);
    ShardConserves(qs[i], calls, f);
    LeftTwo(qs[i].items, AllItems(qs[i + 1..]), calls, f);
    var r := RetainRow(next, i + 1, calls + |qs[i].items|, f, dropped + o.dropped).row;
    RowJoins(qs, i, o.queue, r);
    FlatHead(o.queue, r[i + 1..]);
    Sums(Entries(o.queue.items), Flat(r[i + 1..]), AsLeft(qs[i].items, calls, f),
         AsLeft(AllItems(qs[i + 1..]), calls + |qs[i].items|, f), dropped, o.dropped,
         RetainRow(next, i + 1, calls + |qs[i].items|, f, dropped + o.dropped).dropped);
  }

  lemma Sums<T>(here: seq<T>, later: seq<T>, left: seq<T>, leftLater: seq<T>, a: seq<T>, b: seq<T>, all: seq<T>)
    requires multiset(here) + multiset(b) == multiset(left)
    requires multiset(later) + multiset(all) == multiset(leftLater) + multiset(a + b)
    ensures multiset(here + later) + multiset(all) == multiset(left + leftLater) + multiset(a)
  {
    var x, y := multiset(here + later) + multiset(all), multiset(left + leftLater) + multiset(a);
    assert multiset(here + later) == multiset(here) + multiset(later);
    assert multiset(left + leftLater) == multiset(left) + multiset(leftLater);
    assert multiset(a + b) == multiset(a) + multiset(b);
    forall e ensures x[e] == y[e] {
      assert (multiset(here) + multiset(b))[e] == multiset(left)[e];
      assert (multiset(later) + multiset(all))[e] == (multiset(leftLater) + multiset(a + b))[e];
    }
  }

  lemma FlatHead<K, V>(q: Queue<K, V>, rest: Row<K, V>)
    ensures Flat([q] + rest) == Entries(q.items) + Flat(rest)
  {
    assert ([q] + rest)[1..] == rest;
  }

  lemma ConservesStops<K, V>(qs: Row<K, V>, i: nat, calls: nat, f: Closure<K, V>, dropped: seq<Entry<K, V>>)
    requires i < |qs| && Retain(qs[i], From(f, calls)).Aborted?
    ensures ConservesRow(qs, i, calls, f, dropped)
  {
    hide RetainRow, Retain, AsLeft, Entries, AllItems, Aborts, Flat;
    RowHead(qs, i);
    RetainRowStep(qs, i, calls, f, dropped);
    ShardConserves(qs[i], calls, f);
    LeftTwo(qs[i].items, AllItems(qs[i + 1..]), calls, f);
    assert qs[i := Empty()][i..] == [Empty()] + qs[i + 1..];
    FlatHead(Empty(), qs[i + 1..]);
    FlatEntries(qs[i + 1..]);
    NoEntries<K, V>();
    assert [] + Flat(qs[i + 1..]) == Flat(qs[i + 1..]);
  }

  lemma NoEntries<K, V>()
    ensures Entries(Empty<K, V>().items) == []
  {
  }

  lemma EmptyLeft<K, V>(calls: nat, f: Closure<K, V>)
    ensures AsLeft<K, V>([], calls, f) == []
  {
  }

  lemma {:induction false} FlatEntries<K, V>(qs: Row<K, V>)
    ensures Flat(qs) == Entries(AllItems(qs))
  {
    if qs != [] { FlatEntries(qs[1..]); }
  }

  lemma AbortsSo<K, V>(q: Queue<K, V>, f: Closure<K, V>)
    ensures Retain(q, f).Aborted? <==> Aborts(q.items, 0, f)
  {
    AbortsFrom(q, 0, 0, f, []);
    assert q.items[0..] == q.items;
  }

  lemma {:induction false} AbortsFrom<K, V>(
    q: Queue<K, V>, i: nat, calls: nat, f: Closure<K, V>, dropped: seq<Entry<K, V>>)
    requires i <= |q.items|
    ensures RetainFrom(q, i, calls, f, dropped).Aborted? <==> Aborts(q.items[i..], calls, f)
    decreases |q.items| - i
  {
    hide RetainFrom;
    if i == |q.items| {
      RetainEnd(q, i, calls, f, dropped);
    } else {
      RetainStep(q, i, calls, f, dropped);
      var item := q.items[i];
      var verdict := f(calls, item.key, item.value);
      var q' := q.(items := q.items[i := item.(value := verdict.value)]);
      CutAt(q.items, i, verdict.value);
      assert q.items[i..][1..] == q.items[i + 1..] && q.items[i..][0] == item;
      match verdict
      case Keep(_) => AbortsFrom(q', i + 1, calls + 1, f, dropped);
      case Discard(v) => AbortsFrom(DeleteAt(q', i), i, calls + 1, f, dropped + [Entry(item.key, v)]);
      case Abort(_) =>
    }
  }
}

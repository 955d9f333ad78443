/**
 The sharded cache as a row of plain queues, one a shard: each call goes to the queue its
 key is routed to. Over any run a lookup of a key sees the value last written for it,
 unless it was evicted, removed or filtered out since.
 */
module Sharded {
  import opened Sieve
  import opened SieveLaws
  import opened Sifting

  type Row<+K, +V> = seq<Queue<K, V>>

  /** Which shard each key belongs to. */
  type Routing<!K> = K -> nat

  /** Every queue is valid and within its capacity, and holds only keys routed to it. */
  ghost predicate Sound<K(!new), V>(qs: Row<K, V>, caps: seq<nat>, route: Routing<K>) {
    && |qs| == |caps| && (forall k :: route(k) < |qs|)
    && forall i | 0 <= i < |qs| :: SoundAt(qs, caps, route, i)
  }

  ghost predicate SoundAt<K, V>(qs: Row<K, V>, caps: seq<nat>, route: Routing<K>, i: nat)
    requires i < |qs| == |caps|
  {
    && Valid(qs[i]) && 0 < caps[i] && |qs[i].items| <= caps[i]
    && forall j | 0 <= j < |qs[i].items| :: route(qs[i].items[j].key) == i
  }

  datatype Call<!K, !V> =
    | Look(key: K)
    | Probe(key: K)
    | Write(key: K, value: V)
    | Delete(key: K)
    | LookOrWrite(key: K, value: V)
    | Amend(key: K, promote: bool, g: V -> V)
    | Filter(p: (K, V) -> bool)
    | Sift(f: Closure<K, V>)
    | Wipe

  /**
   The value answered; the pair evicted along the way, whether returned or not; and the
   entries a retain closure kept, with the values it left in them, and those then dropped.
   */
  datatype Reply<+K, +V> = Reply(
    value: Option<V>, evicted: Option<(K, V)>, kept: seq<Entry<K, V>>, dropped: seq<Entry<K, V>>)

  function Plain<K, V>(value: Option<V>, evicted: Option<(K, V)>): Reply<K, V> {
    Reply(value, evicted, [], [])
  }

  /** What the call gives back: the evicted pair only by an insert, the entries only to the closure. */
  function Seen<K, V>(call: Call<K, V>, r: Reply<K, V>): Reply<K, V> {
    Plain(r.value, if call.Write? then r.evicted else None)
  }

  function PeekAt<K(==), V>(qs: Row<K, V>, route: Routing<K>, key: K): Option<V>
    requires route(key) < |qs|
  {
    Peek(qs[route(key)], key)
  }

  function FilterAll<K, V>(qs: Row<K, V>, p: (K, V) -> bool): (r: Row<K, V>)
    ensures |r| == |qs|
  {
    seq(|qs|, i requires 0 <= i < |qs| => var o := Retain(qs[i], Pure(p)); if o.Done? then o.queue else Empty())
  }

  function Emptied<K, V>(n: nat): (r: Row<K, V>)
    ensures |r| == n
  {
    seq(n, _ => Empty())
  }

  ghost function Step<K(!new), V>(qs: Row<K, V>, caps: seq<nat>, route: Routing<K>, call: Call<K, V>)
    : (r: (Reply<K, V>, Row<K, V>))
    requires Sound(qs, caps, route)
    ensures |r.1| == |qs|
  {
    match call
    case Look(k) =>
      var (r, q) := Get(qs[route(k)], k);
      (Plain(r, None), qs[route(k) := q])
    case Probe(k) => (Plain(Peek(qs[route(k)], k), None), qs)
    case Write(k, v) =>
      assert SoundAt(qs, caps, route, route(k));
      var (e, q) := Insert(qs[route(k)], caps[route(k)], k, v);
      (Plain(None, e), qs[route(k) := q])
    case Delete(k) =>
      var (r, q) := Remove(qs[route(k)], k);
      (Plain(r, None), qs[route(k) := q])
    case LookOrWrite(k, v) =>
      assert SoundAt(qs, caps, route, route(k));
      if Has(qs[route(k)], k) then
        var (r, q) := Get(qs[route(k)], k);
        (Plain(r, None), qs[route(k) := q])
      else
        var (e, q) := Insert(qs[route(k)], caps[route(k)], k, v);
        (Plain(Some(v), e), qs[route(k) := q])
    case Amend(k, promote, g) =>
      var (r, q) := Change(qs[route(k)], k, promote, g);
      (Plain(r, None), qs[route(k) := q])
    case Filter(p) => (Plain(None, None), FilterAll(qs, p))
    case Sift(f) =>
      var o := RetainRow(qs, 0, 0, f, []);
      (Reply(None, None, KeptRow(qs, 0, 0, f), o.dropped), o.row)
    case Wipe => (Plain(None, None), Emptied(|qs|))
  }

  /** What a call leaves written for key `x`, of which `was` was written before. */
  function Ledger<K(==), V>(call: Call<K, V>, r: Reply<K, V>, x: K, was: Option<V>): Option<V> {
    var stays := if r.evicted.Some? && r.evicted.value.0 == x then None else was;
    match call
    case Look(_) => was
    case Probe(_) => was
    case Write(k, v) => if x == k then Some(v) else stays
    case Delete(k) => if x == k then None else was
    case LookOrWrite(k, v) => if x == k then (if was.Some? then was else Some(v)) else stays
    case Amend(k, _, g) => if x == k && was.Some? then Some(g(was.value)) else was
    case Filter(p) => if was.Some? && p(x, was.value) then was else None
    case Sift(_) => AfterSift(r.kept, r.dropped, x, was)
    case Wipe => None
  }

  // ---- one call ----

  /** A queue replaced by a sound one leaves the row sound. */
  lemma ReplaceSound<K(!new), V>(qs: Row<K, V>, caps: seq<nat>, route: Routing<K>, i: nat, q: Queue<K, V>)
    requires Sound(qs, caps, route) && i < |qs|
    requires Valid(q) && |q.items| <= caps[i] && forall j | 0 <= j < |q.items| :: route(q.items[j].key) == i
    ensures Sound(qs[i := q], caps, route)
  {
    hide Sieve.Valid;
    var row := qs[i := q];
    forall j | 0 <= j < |qs| ensures SoundAt(row, caps, route, j) {
      assert SoundAt(qs, caps, route, j);
    }
  }

  /** The keys of a queue after an insert are among the old ones and the new one. */
  lemma InsertKeys<K, V>(q: Queue<K, V>, capacity: nat, key: K, value: V, x: K)
    requires Valid(q) && 0 < capacity && |q.items| <= capacity
    ensures Has(Insert(q, capacity, key, value).1, x) ==> x == key || Has(q, x)
  {
    hide Insert;
    InsertPeek(q, capacity, key, value, x);
  }

  lemma RoutedKeys<K, V>(q: Queue<K, V>, route: Routing<K>, i: nat)
    requires UniqueKeys(q.items)
    ensures (forall j | 0 <= j < |q.items| :: route(q.items[j].key) == i) <==> forall x | Has(q, x) :: route(x) == i
  {
    forall j | 0 <= j < |q.items| ensures Has(q, q.items[j].key) { IndexIs(q.items, j); }
    forall x | Has(q, x) ensures q.items[IndexOf(q.items, x)].key == x {}
  }

  lemma WriteSound<K(!new), V>(qs: Row<K, V>, caps: seq<nat>, route: Routing<K>, key: K, value: V)
    requires Sound(qs, caps, route)
    ensures var i := route(key);
      SoundAt(qs, caps, route, i) && Sound(qs[i := Insert(qs[i], caps[i], key, value).1], caps, route)
  {
    hide Insert;
    var i := route(key);
    assert SoundAt(qs, caps, route, i);
    var q := Insert(qs[i], caps[i], key, value).1;
    InsertKeepsValid(qs[i], caps[i], key, value);
    RoutedKeys(qs[i], route, i);
    forall x | Has(q, x) ensures route(x) == i { InsertKeys(qs[i], caps[i], key, value, x); }
    RoutedKeys(q, route, i);
    ReplaceSound(qs, caps, route, i, q);
  }

  lemma LookSound<K(!new), V>(qs: Row<K, V>, caps: seq<nat>, route: Routing<K>, key: K)
    requires Sound(qs, caps, route)
    ensures Sound(qs[route(key) := Get(qs[route(key)], key).1], caps, route)
  {
    var i := route(key);
    assert SoundAt(qs, caps, route, i);
    GetKeepsValid(qs[i], key);
    ReplaceSound(qs, caps, route, i, Get(qs[i], key).1);
  }

  lemma AmendSound<K(!new), V>(
    qs: Row<K, V>, caps: seq<nat>, route: Routing<K>, key: K, promote: bool, g: V -> V)
    requires Sound(qs, caps, route)
    ensures Sound(qs[route(key) := Change(qs[route(key)], key, promote, g).1], caps, route)
  {
    var i := route(key);
    assert SoundAt(qs, caps, route, i);
    ChangePeek(qs[i], key, promote, g, key);
    ReplaceSound(qs, caps, route, i, Change(qs[i], key, promote, g).1);
  }

  lemma DeleteSound<K(!new), V>(qs: Row<K, V>, caps: seq<nat>, route: Routing<K>, key: K)
    requires Sound(qs, caps, route)
    ensures Sound(qs[route(key) := Remove(qs[route(key)], key).1], caps, route)
  {
    var i := route(key);
    assert SoundAt(qs, caps, route, i);
    RemovePeek(qs[i], key, key);
    ReplaceSound(qs, caps, route, i, Remove(qs[i], key).1);
  }

  lemma {:induction false} KeptPeek<K, V>(items: seq<Item<K, V>>, gone: set<K>, x: K)
    requires UniqueKeys(items)
    ensures var kept := Kept(items, gone);
      && UniqueKeys(kept) && Peek(Queue(kept, 0), x) == if x in gone then None else Peek(Queue(items, 0), x)
  {
    if items != [] {
      var tail := items[1..];
      KeptPeek(tail, gone, x);
      KeptPeek(tail, gone, items[0].key);
      assert items == [items[0]] + tail;
      ConsPeek(items[0], tail, x);
      ConsPeek(items[0], tail, items[0].key);
      if items[0].key !in gone { ConsPeek(items[0], Kept(tail, gone), x); }
    }
  }

  /** A new first item with a key of its own. */
  lemma ConsPeek<K, V>(item: Item<K, V>, rest: seq<Item<K, V>>, x: K)
    requires UniqueKeys(rest)
    ensures Peek(Queue(rest, 0), item.key).None? ==> UniqueKeys([item] + rest)
    ensures UniqueKeys([item] + rest) ==> Peek(Queue(rest, 0), item.key).None?
    ensures Peek(Queue([item] + rest, 0), x) == if x == item.key then Some(item.value) else Peek(Queue(rest, 0), x)
  {
    var all := [item] + rest;
    assert all[1..] == rest && all[0] == item;
    var i := IndexOf(rest, item.key);
    if i < |rest| {
      assert all[i + 1].key == item.key;
    } else {
      forall a, b | 0 <= a < b < |all| ensures all[a].key != all[b].key {
        assert all[b] == rest[b - 1];
        if a > 0 { assert all[a] == rest[a - 1]; }
      }
    }
  }

  /** Filtering keeps exactly the pairs the predicate accepts. */
  lemma FilterPeek<K, V>(q: Queue<K, V>, p: (K, V) -> bool, x: K)
    requires Valid(q)
    ensures var o := Retain(q, Pure(p));
      && o.Done? && Valid(o.queue) && |o.queue.items| <= |q.items|
      && var was := Peek(q, x); Peek(o.queue, x) == if was.Some? && p(x, was.value) then was else None
  {
    var gone := Failing(q.items, p);
    RetainFromIsSurvive(q, 0, 0, p, []);
    KeptPeek(q.items, gone, x);
    var i := IndexOf(q.items, x);
    if x in gone {
      var j :| 0 <= j < |q.items| && !p(q.items[j].key, q.items[j].value) && q.items[j].key == x;
      IndexIs(q.items, j);
    }
    if i < |q.items| && !p(x, q.items[i].value) { assert q.items[i].key in gone; }
  }

  lemma FilterSound<K(!new), V>(qs: Row<K, V>, caps: seq<nat>, route: Routing<K>, p: (K, V) -> bool)
    requires Sound(qs, caps, route)
    ensures Sound(FilterAll(qs, p), caps, route)
    ensures forall i | 0 <= i < |qs| :: Retain(qs[i], Pure(p)).Done?
  {
    hide Retain, Sieve.Valid;
    var row := FilterAll(qs, p);
    forall i | 0 <= i < |qs| ensures SoundAt(row, caps, route, i) && Retain(qs[i], Pure(p)).Done? {
      assert SoundAt(qs, caps, route, i);
      ValidUnique(qs[i]);
      forall x | Has(row[i], x) ensures route(x) == i {
        FilterPeek(qs[i], p, x);
        RoutedKeys(qs[i], route, i);
      }
      FilterValid(qs[i], p);
      ValidUnique(row[i]);
      RoutedKeys(row[i], route, i);
    }
  }

  lemma ValidUnique<K, V>(q: Queue<K, V>)
    requires Valid(q)
    ensures UniqueKeys(q.items)
  {
  }

  lemma FilterValid<K, V>(q: Queue<K, V>, p: (K, V) -> bool)
    requires Valid(q)
    ensures var o := Retain(q, Pure(p)); o.Done? && Valid(o.queue) && |o.queue.items| <= |q.items|
  {
    RetainFromIsSurvive(q, 0, 0, p, []);
    if q.items != [] {
      FilterPeek(q, p, q.items[0].key);
    }
  }

  lemma StepKeepsSound<K(!new), V>(qs: Row<K, V>, caps: seq<nat>, route: Routing<K>, call: Call<K, V>)
    requires Sound(qs, caps, route)
    ensures Sound(Step(qs, caps, route, call).1, caps, route)
  {
    hide Sound, Insert, Get, Remove;
    match call
    case Look(k) => LookSound(qs, caps, route, k);
    case Probe(k) =>
    case Write(k, v) => WriteSound(qs, caps, route, k, v);
    case Delete(k) => DeleteSound(qs, caps, route, k);
    case LookOrWrite(k, v) =>
      LookSound(qs, caps, route, k);
      WriteSound(qs, caps, route, k, v);
    case Amend(k, promote, g) => AmendSound(qs, caps, route, k, promote, g);
    case Filter(p) => FilterSound(qs, caps, route, p);
    case Sift(f) => RowSound(qs, caps, route, 0, 0, f, []);
    case Wipe => EmptiedSound(qs, caps, route);
  }

  lemma EmptiedSound<K(!new), V>(qs: Row<K, V>, caps: seq<nat>, route: Routing<K>)
    requires Sound(qs, caps, route)
    ensures Sound(Emptied<K, V>(|qs|), caps, route)
  {
    var row := Emptied<K, V>(|qs|);
    forall i | 0 <= i < |qs| ensures SoundAt(row, caps, route, i) {
      assert SoundAt(qs, caps, route, i);
    }
  }

  /** No call changes a shard it was not routed to. */
  lemma OtherShardsUntouched<K(!new), V>(qs: Row<K, V>, caps: seq<nat>, route: Routing<K>, call: Call<K, V>, i: nat)
    requires Sound(qs, caps, route) && i < |qs|
    requires !call.Filter? && !call.Sift? && !call.Wipe? && i != route(call.key)
    ensures Step(qs, caps, route, call).1[i] == qs[i]
  {
    hide Insert, Get, Remove;
  }

  /**
   One call and the ledger: if every key's lookup agrees with what is written before the
   call, it does after; lookups and removals answer what was written, and so does an
   eviction for the key it takes out.
   */
  lemma StepLedger<K(!new), V>(qs: Row<K, V>, caps: seq<nat>, route: Routing<K>, call: Call<K, V>, x: K)
    requires Sound(qs, caps, route)
    ensures var (r, qs') := Step(qs, caps, route, call);
      && PeekAt(qs', route, x) == Ledger(call, r, x, PeekAt(qs, route, x))
      && (r.evicted.Some? ==> PeekAt(qs, route, r.evicted.value.0) == Some(r.evicted.value.1))
      && (call.Look? || call.Probe? || call.Delete? || call.Amend? ==> r.value == PeekAt(qs, route, call.key))
      && (call.LookOrWrite? ==> r.value == PeekAt(qs', route, call.key))
  {
    hide Sound, Insert, Get, Remove, Peek, Has;
    HereSound(qs, caps, route, x);
    match call
    case Look(k) => HereSound(qs, caps, route, k); GetPeek(qs[route(k)], k, x);
    case Probe(k) =>
    case Write(k, v) => WriteLedger(qs, caps, route, k, v, x);
    case Delete(k) => HereSound(qs, caps, route, k); RemovePeek(qs[route(k)], k, x);
    case LookOrWrite(k, v) =>
      HereSound(qs, caps, route, k);
      WriteLedger(qs, caps, route, k, v, x);
      WriteLedger(qs, caps, route, k, v, k);
      GetPeek(qs[route(k)], k, x);
      GetPeek(qs[route(k)], k, k);
      HasIsPeek(qs[route(k)], k);
    case Amend(k, promote, g) =>
      HereSound(qs, caps, route, k);
      ChangePeek(qs[route(k)], k, promote, g, x);
      ChangePeek(qs[route(k)], k, promote, g, k);
    case Filter(p) => FilterPeek(qs[route(x)], p, x);
    case Sift(f) => SiftRow(qs, caps, route, 0, 0, f, [], x);
    case Wipe => EmptyPeek<K, V>(x);
  }

  lemma HereSound<K(!new), V>(qs: Row<K, V>, caps: seq<nat>, route: Routing<K>, x: K)
    requires Sound(qs, caps, route)
    ensures route(x) < |qs| == |caps| && SoundAt(qs, caps, route, route(x))
  {
  }

  lemma HasIsPeek<K, V>(q: Queue<K, V>, x: K)
    ensures Has(q, x) <==> Peek(q, x).Some?
  {
  }

  lemma EmptyPeek<K, V>(x: K)
    ensures Peek(Empty<K, V>(), x) == None
  {
  }

  lemma WriteLedger<K(!new), V>(qs: Row<K, V>, caps: seq<nat>, route: Routing<K>, key: K, value: V, x: K)
    requires Sound(qs, caps, route)
    ensures var i := route(key);
      && SoundAt(qs, caps, route, i)
      && var (e, q) := Insert(qs[i], caps[i], key, value);
         && PeekAt(qs[i := q], route, x) ==
            (if x == key then Some(value) else if e.Some? && e.value.0 == x then None else PeekAt(qs, route, x))
         && (e.Some? ==> PeekAt(qs, route, e.value.0) == Some(e.value.1))
  {
    hide Insert;
    var i := route(key);
    assert SoundAt(qs, caps, route, i);
    InsertPeek(qs[i], caps[i], key, value, x);
    var e := Insert(qs[i], caps[i], key, value).0;
    if e.Some? {
      var j := IndexOf(qs[i].items, e.value.0);
      assert qs[i].items[j].key == e.value.0;
    }
  }

  // ---- whole runs ----

  /** The row after the calls, and what each call replied. */
  ghost function Play<K(!new), V>(qs: Row<K, V>, caps: seq<nat>, route: Routing<K>, calls: seq<Call<K, V>>)
    : (r: (Row<K, V>, seq<Reply<K, V>>))
    requires Sound(qs, caps, route)
    ensures Sound(r.0, caps, route) && |r.1| == |calls|
    decreases |calls|
  {
    hide Sound, Step;
    if calls == [] then (qs, [])
    else
      var n := |calls| - 1;
      var (before, replies) := Play(qs, caps, route, calls[..n]);
      var (r, after) := Step(before, caps, route, calls[n]);
      StepKeepsSound(before, caps, route, calls[n]);
      (after, replies + [r])
  }

  /** What the calls, with the pairs they evicted, leave written for `x`. */
  ghost function Written<K, V>(calls: seq<Call<K, V>>, replies: seq<Reply<K, V>>, x: K): Option<V>
    requires |replies| == |calls|
    decreases |calls|
  {
    if calls == [] then None
    else
      var n := |calls| - 1;
      Ledger(calls[n], replies[n], x, Written(calls[..n], replies[..n], x))
  }

  /**
   After any run from empty a lookup of any key sees the value last written for it, and
   nothing if it was evicted, removed or filtered out since.
   */
  lemma {:induction false} PeekSeesLastWritten<K(!new), V>(
    caps: seq<nat>, route: Routing<K>, calls: seq<Call<K, V>>, x: K)
    requires (forall k :: route(k) < |caps|) && forall i | 0 <= i < |caps| :: 0 < caps[i]
    ensures Sound(Emptied<K, V>(|caps|), caps, route)
    ensures var (qs, replies) := Play(Emptied<K, V>(|caps|), caps, route, calls);
      PeekAt(qs, route, x) == Written(calls, replies, x)
    decreases |calls|
  {
    hide Step, Ledger;
    var row := Emptied<K, V>(|caps|);
    assert forall i | 0 <= i < |caps| :: SoundAt(row, caps, route, i);
    if calls == [] {
      EmptyPeek<K, V>(x);
    } else {
      var n := |calls| - 1;
      PeekSeesLastWritten(caps, route, calls[..n], x);
      var (before, replies) := Play(row, caps, route, calls[..n]);
      StepLedger(before, caps, route, calls[n], x);
      var all := Play(row, caps, route, calls).1;
      assert all[..n] == replies;
    }
  }

  /** In such a run every lookup and removal answers the value last written for its key. */
  lemma AnswersAreLastWritten<K(!new), V>(caps: seq<nat>, route: Routing<K>, calls: seq<Call<K, V>>, call: Call<K, V>)
    requires (forall k :: route(k) < |caps|) && forall i | 0 <= i < |caps| :: 0 < caps[i]
    ensures Sound(Emptied<K, V>(|caps|), caps, route)
    ensures var (qs, replies) := Play(Emptied<K, V>(|caps|), caps, route, calls);
      var r := Step(qs, caps, route, call).0;
      && (call.Look? || call.Probe? || call.Delete? || call.Amend? ==> r.value == Written(calls, replies, call.key))
      && (call.LookOrWrite? ==>
            r.value == Some(var was := Written(calls, replies, call.key); if was.Some? then was.value else call.value))
      && (r.evicted.Some? ==> Written(calls, replies, r.evicted.value.0) == Some(r.evicted.value.1))
  {
    hide Step, Written;
    var row := Emptied<K, V>(|caps|);
    assert forall i | 0 <= i < |caps| :: SoundAt(row, caps, route, i);
    var (qs, replies) := Play(row, caps, route, calls);
    var r := Step(qs, caps, route, call).0;
    if !call.Filter? && !call.Sift? && !call.Wipe? {
      PeekSeesLastWritten(caps, route, calls, call.key);
      StepLedger(qs, caps, route, call, call.key);
    }
    if r.evicted.Some? {
      PeekSeesLastWritten(caps, route, calls, r.evicted.value.0);
      StepLedger(qs, caps, route, call, r.evicted.value.0);
    }
  }

  // ---- retain across shards ----

  datatype RowOutcome<+K, +V> =
    | RowDone(row: Row<K, V>, dropped: seq<Entry<K, V>>)
    | RowAborted(row: Row<K, V>, dropped: seq<Entry<K, V>>)

  /** The closure as later shards see it: called `calls` times before. */
  function From<K, V>(f: Closure<K, V>, calls: nat): Closure<K, V> {
    (n: nat, k: K, v: V) => f(calls + n, k, v)
  }

  /** Shard after shard; an abort empties the shard it happens in and skips the rest. */
  function RetainRow<K, V>(qs: Row<K, V>, i: nat, calls: nat, f: Closure<K, V>, dropped: seq<Entry<K, V>>)
    : (r: RowOutcome<K, V>)
    requires i <= |qs|
    ensures |r.row| == |qs|
    decreases |qs| - i
  {
    if i == |qs| then RowDone(qs, dropped)
    else
      match Retain(qs[i], From(f, calls))
      case Done(q, d) => RetainRow(qs[i := q], i + 1, calls + |qs[i].items|, f, dropped + d)
      case Aborted(d) => RowAborted(qs[i := Empty()], dropped + d)
  }

  /** What the closure kept, shard after shard, up to an abort. */
  function KeptRow<K, V>(qs: Row<K, V>, i: nat, calls: nat, f: Closure<K, V>): seq<Entry<K, V>>
    requires i <= |qs|
    decreases |qs| - i
  {
    if i == |qs| then []
    else
      KeptOf(qs[i].items, 0, From(f, calls)) +
      if Retain(qs[i], From(f, calls)).Aborted? then [] else KeptRow(qs, i + 1, calls + |qs[i].items|, f)
  }

  lemma RetainRowStep<K, V>(qs: Row<K, V>, i: nat, calls: nat, f: Closure<K, V>, dropped: seq<Entry<K, V>>)
    requires i < |qs|
    ensures var o := Retain(qs[i], From(f, calls));
      RetainRow(qs, i, calls, f, dropped) ==
      if o.Done? then RetainRow(qs[i := o.queue], i + 1, calls + |qs[i].items|, f, dropped + o.dropped)
      else RowAborted(qs[i := Empty()], dropped + o.dropped)
  {
    hide Retain;
  }

  lemma KeptRowStep<K, V>(qs: Row<K, V>, i: nat, calls: nat, f: Closure<K, V>)
    requires i < |qs|
    ensures KeptRow(qs, i, calls, f) ==
            KeptOf(qs[i].items, 0, From(f, calls)) +
            if Retain(qs[i], From(f, calls)).Aborted? then [] else KeptRow(qs, i + 1, calls + |qs[i].items|, f)
  {
    hide Retain, KeptOf;
  }

  lemma KeptRowEnd<K, V>(qs: Row<K, V>, i: nat, calls: nat, f: Closure<K, V>)
    requires i == |qs|
    ensures KeptRow(qs, i, calls, f) == []
  {
  }

  lemma RetainRowEnd<K, V>(qs: Row<K, V>, i: nat, calls: nat, f: Closure<K, V>, dropped: seq<Entry<K, V>>)
    requires i == |qs|
    ensures RetainRow(qs, i, calls, f, dropped) == RowDone(qs, dropped)
  {
  }

  ghost predicate AllEmpty<K, V>(qs: Row<K, V>) {
    forall i | 0 <= i < |qs| :: qs[i].items == []
  }

  ghost predicate OneHoldsAll<K, V>(qs: Row<K, V>) {
    forall i, j | 0 <= i < j < |qs| :: qs[i].items == [] || qs[j].items == []
  }

  lemma RetainOfEmpty<K, V>(q: Queue<K, V>, f: Closure<K, V>)
    requires q.items == []
    ensures Retain(q, f) == Done(q, [])
  {
  }

  /** If entries are all in one shard, a closure that aborts leaves the cache empty. */
  lemma {:induction false} AbortEmpties<K, V>(
    qs: Row<K, V>, i: nat, calls: nat, f: Closure<K, V>, dropped: seq<Entry<K, V>>)
    requires i <= |qs| && OneHoldsAll(qs) && forall j | 0 <= j < i :: qs[j].items == []
    ensures var o := RetainRow(qs, i, calls, f, dropped); o.RowAborted? ==> AllEmpty(o.row)
    decreases |qs| - i
  {
    hide Retain;
    if i < |qs| {
      var o := Retain(qs[i], From(f, calls));
      if qs[i].items == [] {
        RetainOfEmpty(qs[i], From(f, calls));
        assert qs[i := qs[i]] == qs;
        AbortEmpties(qs, i + 1, calls, f, dropped + []);
      } else {
        assert forall j | i < j < |qs| :: qs[j].items == [];
        if o.Done? {
          NoMoreAborts(qs[i := o.queue], i + 1, calls + |qs[i].items|, f, dropped + o.dropped);
        }
      }
    }
  }

  lemma {:induction false} NoMoreAborts<K, V>(
    qs: Row<K, V>, i: nat, calls: nat, f: Closure<K, V>, dropped: seq<Entry<K, V>>)
    requires i <= |qs| && forall j | i <= j < |qs| :: qs[j].items == []
    ensures RetainRow(qs, i, calls, f, dropped).RowDone?
    decreases |qs| - i
  {
    if i < |qs| {
      RetainOfEmpty(qs[i], From(f, calls));
      NoMoreAborts(qs[i := qs[i]], i + 1, calls + |qs[i].items|, f, dropped + []);
    }
  }

  /** If two shards hold entries, a closure that aborts at once leaves the second as it was. */
  lemma AbortLeaves<K, V>(qs: Row<K, V>, i: nat, j: nat)
    requires i < j < |qs| && qs[i].items != [] && qs[j].items != []
    requires forall m | 0 <= m < i :: qs[m].items == []
    ensures var f: Closure<K, V> := (n: nat, k: K, v: V) => Abort(v);
      var o := RetainRow(qs, 0, 0, f, []); o.RowAborted? && o.row[j] == qs[j]
  {
    var f: Closure<K, V> := (n: nat, k: K, v: V) => Abort(v);
    SkipEmpties(qs, 0, i, f);
    var g := From(f, 0);
    assert Retain(qs[i], g).Aborted?;
  }

  lemma {:induction false} SkipEmpties<K, V>(qs: Row<K, V>, m: nat, i: nat, f: Closure<K, V>)
    requires m <= i <= |qs| && forall j | m <= j < i :: qs[j].items == []
    ensures RetainRow(qs, m, 0, f, []) == RetainRow(qs, i, 0, f, [])
    decreases i - m
  {
    if m < i {
      RetainOfEmpty(qs[m], From(f, 0));
      assert qs[m := qs[m]] == qs;
      var none: seq<Entry<K, V>> := [];
      assert none + none == none;
      SkipEmpties(qs, m + 1, i, f);
    }
  }

  /** No closure that aborts leaves an entry behind. */
  ghost predicate AbortsEmpty<K(!new), V(!new)>(qs: Row<K, V>) {
    forall f: Closure<K, V> :: RetainRow(qs, 0, 0, f, []).RowAborted? ==> AllEmpty(RetainRow(qs, 0, 0, f, []).row)
  }

  /** A cache is left empty by every aborting closure exactly when one shard holds all entries. */
  lemma AbortsEmptyIff<K(!new), V(!new)>(qs: Row<K, V>)
    ensures AbortsEmpty(qs) <==> OneHoldsAll(qs)
  {
    if OneHoldsAll(qs) {
      forall f: Closure<K, V> | RetainRow(qs, 0, 0, f, []).RowAborted?
        ensures AllEmpty(RetainRow(qs, 0, 0, f, []).row)
      {
        AbortEmpties(qs, 0, 0, f, []);
      }
    } else {
      var i, j :| 0 <= i < j < |qs| && qs[i].items != [] && qs[j].items != [];
      var m := FirstHolder(qs, i);
      AbortLeaves(qs, m, j);
      var f: Closure<K, V> := (n: nat, k: K, v: V) => Abort(v);
      assert !AllEmpty(RetainRow(qs, 0, 0, f, []).row);
    }
  }

  lemma {:induction false} FirstHolder<K, V>(qs: Row<K, V>, i: nat) returns (m: nat)
    requires i < |qs| && qs[i].items != []
    ensures m <= i && qs[m].items != [] && forall j | 0 <= j < m :: qs[j].items == []
  {
    m := 0;
    while qs[m].items == []
      invariant m <= i && forall j | 0 <= j < m :: qs[j].items == []
      decreases i - m
    {
      m := m + 1;
    }
  }

  /** A predicate answers the same however often it was called before. */
  lemma {:induction false} PureFrom<K, V>(
    q: Queue<K, V>, i: nat, a: nat, b: nat, p: (K, V) -> bool, calls: nat, dropped: seq<Entry<K, V>>)
    requires i <= |q.items|
    ensures RetainFrom(q, i, a, From(Pure(p), calls), dropped) == RetainFrom(q, i, b, Pure(p), dropped)
    decreases |q.items| - i
  {
    if i < |q.items| {
      var item := q.items[i];
      if p(item.key, item.value) {
        PureFrom(q.(items := q.items[i := item.(value := item.value)]), i + 1, a + 1, b + 1, p, calls, dropped);
      } else {
        PureFrom(DeleteAt(q, i), i, a + 1, b + 1, p, calls, dropped + [Entry(item.key, item.value)]);
      }
    }
  }

  /** For a predicate the row ends filtered, shard by shard. */
  lemma {:induction false} RetainRowFilters<K(!new), V>(
    qs: Row<K, V>, caps: seq<nat>, route: Routing<K>, row: Row<K, V>, i: nat, calls: nat, p: (K, V) -> bool,
    dropped: seq<Entry<K, V>>)
    requires Sound(qs, caps, route) && |row| == |qs| && i <= |qs|
    requires row == FilterAll(qs, p)[..i] + qs[i..]
    ensures var o := RetainRow(row, i, calls, Pure(p), dropped); o.RowDone? && o.row == FilterAll(qs, p)
    decreases |qs| - i
  {
    hide Retain, Sound;
    if i < |qs| {
      FilterSound(qs, caps, route, p);
      PureFromWhole(qs[i], p, calls);
      assert row[i] == qs[i];
      var o := Retain(qs[i], From(Pure(p), calls));
      var next := row[i := o.queue];
      assert next == FilterAll(qs, p)[..i + 1] + qs[i + 1..];
      RetainRowFilters(qs, caps, route, next, i + 1, calls + |qs[i].items|, p, dropped + o.dropped);
    }
  }

  lemma PureFromWhole<K, V>(q: Queue<K, V>, p: (K, V) -> bool, calls: nat)
    ensures Retain(q, From(Pure(p), calls)) == Retain(q, Pure(p))
  {
    PureFrom(q, 0, 0, 0, p, calls, []);
  }

  // ---- every closure keeps the row sound ----

  ghost predicate HasKey<K, V>(items: seq<Item<K, V>>, key: K) {
    exists m :: 0 <= m < |items| && items[m].key == key
  }

  ghost predicate KeysFrom<K, V>(a: seq<Item<K, V>>, b: seq<Item<K, V>>) {
    forall j | 0 <= j < |a| :: HasKey(b, a[j].key)
  }

  lemma KeysFromTwice<K, V>(a: seq<Item<K, V>>, b: seq<Item<K, V>>, d: seq<Item<K, V>>)
    requires KeysFrom(a, b) && KeysFrom(b, d)
    ensures KeysFrom(a, d)
  {
    forall j | 0 <= j < |a| ensures HasKey(d, a[j].key) {
      assert HasKey(b, a[j].key);
      var m :| 0 <= m < |b| && b[m].key == a[j].key;
      assert HasKey(d, b[m].key);
    }
  }

  lemma SameKeysFrom<K, V>(a: seq<Item<K, V>>, b: seq<Item<K, V>>)
    requires |a| == |b| && forall j | 0 <= j < |a| :: a[j].key == b[j].key
    ensures KeysFrom(a, b)
  {
    forall j | 0 <= j < |a| ensures HasKey(b, a[j].key) { assert b[j].key == a[j].key; }
  }

  lemma WithoutKeysFrom<K, V>(items: seq<Item<K, V>>, i: nat)
    requires i < |items|
    ensures KeysFrom(Without(items, i), items)
  {
    var rest := Without(items, i);
    forall j | 0 <= j < |rest| ensures HasKey(items, rest[j].key) {
      assert items[if j < i then j else j + 1].key == rest[j].key;
    }
  }

  /** Whatever the closure does, no key appears that was not there. */
  lemma {:induction false} RetainKeepsKeys<K, V>(
    q: Queue<K, V>, i: nat, calls: nat, f: Closure<K, V>, dropped: seq<Entry<K, V>>)
    requires Valid(q) && i <= |q.items|
    ensures var o := RetainFrom(q, i, calls, f, dropped);
      o.Done? ==> Valid(o.queue) && |o.queue.items| <= |q.items| && KeysFrom(o.queue.items, q.items)
    decreases |q.items| - i
  {
    if i < |q.items| {
      var item := q.items[i];
      match f(calls, item.key, item.value)
      case Keep(v) =>
        var q' := q.(items := q.items[i := item.(value := v)]);
        RetainKeepsKeys(q', i + 1, calls + 1, f, dropped);
        assert KeysFrom(q'.items, q.items) by { SameKeysFrom(q'.items, q.items); }
        KeysFromTwice(RetainedItems(q', i + 1, calls + 1, f, dropped), q'.items, q.items);
      case Discard(v) =>
        var q' := DeleteAt(q, i);
        DeleteKeepsValid(q, i);
        RetainKeepsKeys(q', i, calls + 1, f, dropped + [Entry(item.key, v)]);
        assert KeysFrom(q'.items, q.items) by { WithoutKeysFrom(q.items, i); }
        KeysFromTwice(RetainedItems(q', i, calls + 1, f, dropped + [Entry(item.key, v)]), q'.items, q.items);
      case Abort(v) =>
    } else {
      SameKeysFrom(q.items, q.items);
    }
  }

  function RetainedItems<K, V>(
    q: Queue<K, V>, i: nat, calls: nat, f: Closure<K, V>, dropped: seq<Entry<K, V>>): seq<Item<K, V>>
    requires i <= |q.items|
  {
    var o := RetainFrom(q, i, calls, f, dropped);
    if o.Done? then o.queue.items else []
  }

  lemma RetainSound<K(!new), V>(qs: Row<K, V>, caps: seq<nat>, route: Routing<K>, i: nat, f: Closure<K, V>)
    requires Sound(qs, caps, route) && i < |qs|
    ensures Sound(qs[i := Empty()], caps, route)
    ensures var o := Retain(qs[i], f); o.Done? ==> Sound(qs[i := o.queue], caps, route)
  {
    hide RetainFrom;
    assert SoundAt(qs, caps, route, i);
    RetainKeepsKeys(qs[i], 0, 0, f, []);
    ReplaceSound(qs, caps, route, i, Empty());
    var o := Retain(qs[i], f);
    if o.Done? {
      forall j | 0 <= j < |o.queue.items| ensures route(o.queue.items[j].key) == i {
        assert HasKey(qs[i].items, o.queue.items[j].key);
      }
      ReplaceSound(qs, caps, route, i, o.queue);
    }
  }

  lemma {:induction false} RowSound<K(!new), V>(
    qs: Row<K, V>, caps: seq<nat>, route: Routing<K>, i: nat, calls: nat, f: Closure<K, V>, dropped: seq<Entry<K, V>>)
    requires Sound(qs, caps, route) && i <= |qs|
    ensures Sound(RetainRow(qs, i, calls, f, dropped).row, caps, route)
    decreases |qs| - i
  {
    hide Retain, Sound;
    if i < |qs| {
      RetainSound(qs, caps, route, i, From(f, calls));
      var o := Retain(qs[i], From(f, calls));
      if o.Done? { RowSound(qs[i := o.queue], caps, route, i + 1, calls + |qs[i].items|, f, dropped + o.dropped); }
    }
  }

  /** A retain over all shards leaves each key what the kept and the dropped entries say. */
  lemma {:induction false} SiftRow<K(!new), V>(
    qs: Row<K, V>, caps: seq<nat>, route: Routing<K>, i: nat, calls: nat, f: Closure<K, V>,
    dropped: seq<Entry<K, V>>, x: K)
    requires Sound(qs, caps, route) && i <= |qs|
    ensures var kept, o := KeptRow(qs, i, calls, f), RetainRow(qs, i, calls, f, dropped);
      && dropped <= o.dropped && route(x) < |qs|
      && var more := o.dropped[|dropped|..];
         && PeekAt(o.row, route, x) == AfterSift(kept, more, x, PeekAt(qs, route, x))
         && (route(x) < i ==> Lookup(kept, x).None? && Lookup(more, x).None?)
    decreases |qs| - i
  {
    hide Retain, Sound, Peek, KeptOf, AfterSift, Lookup, RetainRow, KeptRow;
    HereSound(qs, caps, route, x);
    if i == |qs| {
      RetainRowEnd(qs, i, calls, f, dropped);
      NothingSifted(x, PeekAt(qs, route, x));
      KeptRowEnd(qs, i, calls, f);
      assert dropped[|dropped|..] == [];
    } else {
      RetainRowStep(qs, i, calls, f, dropped);
      KeptRowStep(qs, i, calls, f);
      SiftShard(qs, caps, route, i, From(f, calls), x);
      RetainSound(qs, caps, route, i, From(f, calls));
      var o, here := Retain(qs[i], From(f, calls)), KeptOf(qs[i].items, 0, From(f, calls));
      if o.Done? {
        var next, n := qs[i := o.queue], calls + |qs[i].items|;
        SiftRow(next, caps, route, i + 1, n, f, dropped + o.dropped, x);
        KeptLater(qs, next, i + 1, n, f);
        var all := RetainRow(qs, i, calls, f, dropped).dropped;
        Appended(dropped, o.dropped, all);
        var kept, more := KeptRow(qs, i + 1, n, f), all[|dropped + o.dropped|..];
        SiftTwice(here, o.dropped, kept, more, x, PeekAt(qs, route, x));
      } else {
        assert (dropped + o.dropped)[|dropped|..] == o.dropped && here + [] == here;
        EmptyPeek<K, V>(x);
        if route(x) != i { NotMet(here, o.dropped, x, PeekAt(qs, route, x)); }
      }
    }
  }

  lemma Appended<T>(a: seq<T>, b: seq<T>, all: seq<T>)
    requires a + b <= all
    ensures a <= all && all[|a|..] == b + all[|a + b|..]
  {
    assert all == a + b + all[|a + b|..];
  }

  /** Two stretches of a pass, of which only one meets the key. */
  lemma SiftTwice<K, V>(
    k1: seq<Entry<K, V>>, d1: seq<Entry<K, V>>, k2: seq<Entry<K, V>>, d2: seq<Entry<K, V>>, x: K, was: Option<V>)
    ensures Lookup(k1 + k2, x).None? <==> Lookup(k1, x).None? && Lookup(k2, x).None?
    ensures Lookup(d1 + d2, x).None? <==> Lookup(d1, x).None? && Lookup(d2, x).None?
    ensures Lookup(k1, x).None? && Lookup(d1, x).None? ==>
      AfterSift(k1 + k2, d1 + d2, x, was) == AfterSift(k2, d2, x, was)
    ensures Lookup(k2, x).None? && Lookup(d2, x).None? ==>
      AfterSift(k1 + k2, d1 + d2, x, was) == AfterSift(k1, d1, x, was) ==
      AfterSift(k2, d2, x, AfterSift(k1, d1, x, was))
  {
    hide Lookup;
    LookupConcat(k1, k2, x);
    LookupConcat(d1, d2, x);
  }

  /** The shards to come are the same. */
  lemma {:induction false} KeptLater<K, V>(a: Row<K, V>, b: Row<K, V>, i: nat, calls: nat, f: Closure<K, V>)
    requires |a| == |b| && i <= |a| && forall j | i <= j < |a| :: a[j] == b[j]
    ensures KeptRow(a, i, calls, f) == KeptRow(b, i, calls, f)
    decreases |a| - i
  {
    hide Retain, KeptOf;
    if i < |a| { KeptLater(a, b, i + 1, calls + |a[i].items|, f); }
  }

  /** One shard's part of the pass. */
  lemma SiftShard<K(!new), V>(
    qs: Row<K, V>, caps: seq<nat>, route: Routing<K>, i: nat, f: Closure<K, V>, x: K)
    requires Sound(qs, caps, route) && i < |qs|
    ensures var kept, o := KeptOf(qs[i].items, 0, f), Retain(qs[i], f);
      && route(x) < |qs|
      && (route(x) != i ==> Lookup(kept, x).None? && Lookup(o.dropped, x).None?)
      && (route(x) == i && o.Done? ==> Peek(o.queue, x) == AfterSift(kept, o.dropped, x, Peek(qs[i], x)))
      && (route(x) == i && o.Aborted? ==> AfterSift(kept, o.dropped, x, Peek(qs[i], x)).None?)
  {
    hide Retain, KeptOf, Lookup;
    assert SoundAt(qs, caps, route, i);
    SiftPeek(qs[i], f, x);
    ValidUnique(qs[i]);
    RoutedKeys(qs[i], route, i);
    HasIsPeek(qs[i], x);
  }

  // ---- entries of a row ----

  /** All entries, shard by shard, oldest first within a shard. */
  function Flat<K, V>(qs: Row<K, V>): seq<Entry<K, V>> {
    if qs == [] then [] else Entries(qs[0].items) + Flat(qs[1..])
  }

  function Sizes<K, V>(qs: Row<K, V>): nat {
    if qs == [] then 0 else |qs[0].items| + Sizes(qs[1..])
  }

  lemma {:induction false} FlatSnoc<K, V>(qs: Row<K, V>, i: nat)
    requires i < |qs|
    ensures Flat(qs[..i + 1]) == Flat(qs[..i]) + Entries(qs[i].items)
    ensures Sizes(qs[..i + 1]) == Sizes(qs[..i]) + |qs[i].items|
    decreases i
  {
    if i > 0 {
      FlatSnoc(qs[1..], i - 1);
      assert qs[1..][..i] == qs[..i + 1][1..] && qs[1..][..i - 1] == qs[..i][1..];
      assert qs[1..][i - 1] == qs[i];
    } else {
      assert qs[..1] == [qs[0]] && qs[..0] == [];
      assert [qs[0]][1..] == [];
    }
  }

  /** The row with its first `i` queues emptied. */
  function EmptiedTo<K, V>(qs: Row<K, V>, i: nat): (r: Row<K, V>)
    requires i <= |qs|
    ensures |r| == |qs|
  {
    Emptied(i) + qs[i..]
  }

  lemma EmptiedStep<K, V>(qs: Row<K, V>, i: nat)
    requires i < |qs|
    ensures EmptiedTo(qs, i)[i] == qs[i] && EmptiedTo(qs, i)[i := Empty()] == EmptiedTo(qs, i + 1)
  {
  }

  lemma EmptiedEnds<K, V>(qs: Row<K, V>)
    ensures EmptiedTo(qs, 0) == qs && EmptiedTo(qs, |qs|) == Emptied(|qs|)
  {
  }
}

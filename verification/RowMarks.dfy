/**
 What each call on the sharded cache does to the flags, the order and the hand of the
 shard it is routed to, and what a hit is for: while another entry is unvisited, the next
 eviction is not of the key that was hit.
 */
module RowMarks {
  import opened Sieve
  import opened SieveLaws
  import opened Sifting
  import opened Marks
  import opened OnePass
  import opened Sharded
  import opened RowPass

  /** The queue at `key`'s shard before and after the call. */
  ghost predicate Looked<K, V>(a: Queue<K, V>, b: Queue<K, V>, key: K, r: Reply<K, V>) {
    && SameBut(a, b, key) && (Peek(a, key).None? ==> b == a)
    && (Peek(a, key).Some? ==> Holds(b, key, Peek(a, key).value, true))
    && r == Plain(Peek(a, key), None)
  }

  ghost predicate Amended<K, V>(
    a: Queue<K, V>, b: Queue<K, V>, key: K, promote: bool, g: V -> V, r: Reply<K, V>)
  {
    && SameBut(a, b, key) && (Peek(a, key).None? ==> b == a)
    && (Peek(a, key).Some? ==> Holds(b, key, g(Peek(a, key).value), if promote then true else Visited(a, key)))
    && r == Plain(Peek(a, key), None)
  }

  /** An insert writes and marks, joins, or evicts. */
  ghost predicate Inserted<K, V>(
    a: Queue<K, V>, b: Queue<K, V>, capacity: nat, key: K, value: V, evicted: Option<(K, V)>)
  {
    if Peek(a, key).Some? then
      SameBut(a, b, key) && Holds(b, key, value, true) && evicted == None
    else if |a.items| < capacity then
      b == Queue(a.items + [Item(key, value, false)], a.hand) && evicted == None
    else
      exists v: nat ::
        Evicts(a, b, v, Item(key, value, false)) && evicted == Some((a.items[v].key, a.items[v].value))
  }

  ghost predicate Deleted<K, V>(a: Queue<K, V>, b: Queue<K, V>, key: K, r: Reply<K, V>) {
    && r == Plain(Peek(a, key), None) && (Peek(a, key).None? ==> b == a)
    && (Peek(a, key).Some? ==> exists i: nat :: Removes(a, b, i) && a.items[i].key == key)
  }

  /** What the call does to the row `qs`. */
  ghost predicate Does<K(!new), V>(
    qs: Row<K, V>, row: Row<K, V>, caps: seq<nat>, route: Routing<K>, call: Call<K, V>, r: Reply<K, V>)
    requires Sound(qs, caps, route) && |row| == |qs|
  {
    match call
    case Look(k) => Alone(qs, row, route(k)) && Looked(qs[route(k)], row[route(k)], k, r)
    case Probe(k) => row == qs && r == Plain(Peek(qs[route(k)], k), None)
    case Write(k, v) =>
      && Alone(qs, row, route(k)) && r.value == None
      && Inserted(qs[route(k)], row[route(k)], caps[route(k)], k, v, r.evicted)
    case Delete(k) => Alone(qs, row, route(k)) && Deleted(qs[route(k)], row[route(k)], k, r)
    case LookOrWrite(k, v) =>
      && Alone(qs, row, route(k))
      && (if Peek(qs[route(k)], k).Some? then Looked(qs[route(k)], row[route(k)], k, r)
          else r.value == Some(v) && Inserted(qs[route(k)], row[route(k)], caps[route(k)], k, v, r.evicted))
    case Amend(k, promote, g) =>
      Alone(qs, row, route(k)) && Amended(qs[route(k)], row[route(k)], k, promote, g, r)
    case Filter(p) => PassesAll(qs, row, Pure(p), |qs|)
    case Sift(f) =>
      && r.kept == KeptOf(AllItems(qs), 0, f)
      && exists stopped: nat ::
           PassesAll(qs, row, f, stopped) && r.dropped == Drops(AllItems(qs), 0, f) + Spilled(qs, f, 0, stopped)
    case Wipe => forall i | 0 <= i < |qs| :: row[i].items == [] && row[i].hand == 0
  }

  /** Only the queue of shard `i` may have changed. */
  ghost predicate Alone<K, V>(qs: Row<K, V>, row: Row<K, V>, i: nat) {
    i < |qs| == |row| && forall j | 0 <= j < |qs| && j != i :: row[j] == qs[j]
  }

  ghost predicate PassesAll<K, V>(qs: Row<K, V>, row: Row<K, V>, f: Closure<K, V>, stopped: nat) {
    AllValid(qs) && stopped <= |qs| && Ends(qs, f, 0, stopped, row)
  }

  /** Every call, on every shard: values, flags, order and hand. */
  lemma StepDoes<K(!new), V>(qs: Row<K, V>, caps: seq<nat>, route: Routing<K>, call: Call<K, V>)
    requires Sound(qs, caps, route)
    ensures var (r, row) := Step(qs, caps, route, call); Does(qs, row, caps, route, call, r)
  {
    hide Sound, Insert, Get, Remove, Change, Looked, Amended, Inserted, Deleted, PassesAll;
    if !call.Filter? && !call.Sift? && !call.Wipe? { HereSound(qs, caps, route, call.key); }
    match call
    case Look(k) => QueueLooked(qs[route(k)], k);
    case Probe(k) =>
    case Write(k, v) => QueueInserted(qs[route(k)], caps[route(k)], k, v);
    case Delete(k) => QueueDeleted(qs[route(k)], k);
    case LookOrWrite(k, v) =>
      QueueLooked(qs[route(k)], k);
      HasIsPeek(qs[route(k)], k);
      QueueInserted(qs[route(k)], caps[route(k)], k, v);
    case Amend(k, promote, g) => QueueAmended(qs[route(k)], k, promote, g);
    case Filter(p) => RowFiltered(qs, caps, route, p);
    case Sift(f) => RowSifted(qs, caps, route, f);
    case Wipe =>
  }

  lemma QueueLooked<K, V>(q: Queue<K, V>, key: K)
    requires Valid(q)
    ensures var (value, q') := Get(q, key); Looked(q, q', key, Plain(value, None))
  {
    GetMarks(q, key);
    GetPeek(q, key, key);
  }

  lemma QueueAmended<K, V>(q: Queue<K, V>, key: K, promote: bool, g: V -> V)
    requires Valid(q)
    ensures var (value, q') := Change(q, key, promote, g); Amended(q, q', key, promote, g, Plain(value, None))
  {
    ChangeMarks(q, key, promote, g);
    ChangePeek(q, key, promote, g, key);
  }

  lemma QueueInserted<K, V>(q: Queue<K, V>, capacity: nat, key: K, value: V)
    requires Valid(q) && 0 < capacity && |q.items| <= capacity
    ensures var (e, q') := Insert(q, capacity, key, value); Inserted(q, q', capacity, key, value, e)
  {
    hide Insert, Evicts;
    HasIsPeek(q, key);
    if Has(q, key) {
      UpdateMarks(q, capacity, key, value);
    } else if |q.items| < capacity {
      JoinsUnvisited(q, capacity, key, value);
    } else {
      var v := InsertEvicts(q, capacity, key, value);
    }
  }

  lemma QueueDeleted<K, V>(q: Queue<K, V>, key: K)
    requires Valid(q)
    ensures var (value, q') := Remove(q, key); Deleted(q, q', key, Plain(value, None))
  {
    RemoveCloses(q, key);
    RemovePeek(q, key, key);
  }

  lemma SoundValid<K(!new), V>(qs: Row<K, V>, caps: seq<nat>, route: Routing<K>)
    requires Sound(qs, caps, route)
    ensures AllValid(qs)
  {
    forall i | 0 <= i < |qs| ensures Valid(qs[i]) { assert SoundAt(qs, caps, route, i); }
  }

  lemma RowSifted<K(!new), V>(qs: Row<K, V>, caps: seq<nat>, route: Routing<K>, f: Closure<K, V>)
    requires Sound(qs, caps, route)
    ensures KeptRow(qs, 0, 0, f) == KeptOf(AllItems(qs), 0, f)
    ensures var o := RetainRow(qs, 0, 0, f, []);
      exists stopped: nat ::
        PassesAll(qs, o.row, f, stopped) && o.dropped == Drops(AllItems(qs), 0, f) + Spilled(qs, f, 0, stopped)
  {
    hide RetainRow, Ends, KeptRow, KeptOf, Drops;
    SoundValid(qs, caps, route);
    var stopped := RowIsOnePass(qs, f);
    EndsWithin(qs, f, 0, stopped, RetainRow(qs, 0, 0, f, []).row);
    assert PassesAll(qs, RetainRow(qs, 0, 0, f, []).row, f, stopped);
  }

  lemma EndsWithin<K, V>(qs: Row<K, V>, f: Closure<K, V>, calls: nat, stopped: nat, row: Row<K, V>)
    requires AllValid(qs) && Ends(qs, f, calls, stopped, row)
    ensures stopped <= |qs|
  {
  }

  lemma RowFiltered<K(!new), V>(qs: Row<K, V>, caps: seq<nat>, route: Routing<K>, p: (K, V) -> bool)
    requires Sound(qs, caps, route)
    ensures PassesAll(qs, FilterAll(qs, p), Pure(p), |qs|)
  {
    hide RetainRow, Ends, FilterAll;
    SoundValid(qs, caps, route);
    assert FilterAll(qs, p)[..0] + qs[0..] == qs;
    RetainRowFilters(qs, caps, route, qs, 0, 0, p, []);
    var stopped := RowIsOnePass(qs, Pure(p));
  }

  // ---- what a hit is for ----

  /** Nothing is evicted from `k`'s shard. */
  ghost predicate Spares<K(!new), V>(route: Routing<K>, r: Reply<K, V>, k: K) {
    r.evicted.Some? ==> route(r.evicted.value.0) != route(k)
  }

  /** The call finds `k` and promotes it: a lookup, a promoting mutable lookup, or a write over it. */
  ghost predicate Hits<K, V>(call: Call<K, V>, k: K) {
    && (call.Look? || call.LookOrWrite? || call.Write? || (call.Amend? && call.promote))
    && call.key == k
  }

  /** A hit leaves the entry visited. */
  lemma HitMarks<K(!new), V>(qs: Row<K, V>, caps: seq<nat>, route: Routing<K>, call: Call<K, V>, k: K)
    requires Sound(qs, caps, route) && Hits(call, k) && PeekAt(qs, route, k).Some?
    ensures var (r, row) := Step(qs, caps, route, call);
      Visited(row[route(k)], k) && PeekAt(row, route, k).Some? && r.evicted == None
  {
    hide Sound, Step;
    HereSound(qs, caps, route, k);
    StepDoes(qs, caps, route, call);
    StepKeepsSound(qs, caps, route, call);
    var (r, row) := Step(qs, caps, route, call);
    HereSound(row, caps, route, k);
    var b := row[route(k)];
    var j :| 0 <= j < |b.items| && b.items[j].key == k && b.items[j].visited;
    IndexIs(b.items, j);
  }

  lemma {:induction false} KeptFlag<K, V>(items: seq<Item<K, V>>, n: nat, f: Closure<K, V>, m: nat) returns (j: nat)
    requires m < |KeptItems(items, n, f)|
    ensures var it := KeptItems(items, n, f)[m];
      j < |items| && items[j].key == it.key && items[j].visited == it.visited
  {
    match f(n, items[0].key, items[0].value)
    case Keep(_) =>
      if m == 0 {
        j := 0;
      } else {
        var i := KeptFlag(items[1..], n + 1, f, m - 1);
        j := i + 1;
      }
    case Discard(_) =>
      var i := KeptFlag(items[1..], n + 1, f, m);
      j := i + 1;
  }

  /** An entry that is visited stays so, as long as it stays and nothing is evicted from its shard. */
  lemma MarkStays<K(!new), V>(qs: Row<K, V>, caps: seq<nat>, route: Routing<K>, call: Call<K, V>, k: K)
    requires Sound(qs, caps, route) && route(k) < |qs| && Visited(qs[route(k)], k)
    requires var (r, row) := Step(qs, caps, route, call); Spares(route, r, k) && PeekAt(row, route, k).Some?
    ensures Visited(Step(qs, caps, route, call).1[route(k)], k)
  {
    hide Sound, Step, Does;
    HereSound(qs, caps, route, k);
    StepDoes(qs, caps, route, call);
    var (r, row) := Step(qs, caps, route, call);
    var i := route(k);
    if call.Filter? || call.Sift? || call.Wipe? {
      PassKeepsMark(qs, row, caps, route, call, r, k);
    } else if route(call.key) != i {
      DoesElsewhere(qs, row, caps, route, call, r, i);
    } else {
      ShardKeepsMark(qs, row, caps, route, call, r, k);
    }
  }

  lemma DoesElsewhere<K(!new), V>(
    qs: Row<K, V>, row: Row<K, V>, caps: seq<nat>, route: Routing<K>, call: Call<K, V>, r: Reply<K, V>, i: nat)
    requires Sound(qs, caps, route) && |row| == |qs| && Does(qs, row, caps, route, call, r)
    requires !call.Filter? && !call.Sift? && !call.Wipe? && route(call.key) != i && i < |qs|
    ensures row[i] == qs[i]
  {
  }

  lemma OneItem<K, V>(q: Queue<K, V>, k: K) returns (j: nat)
    requires Valid(q) && Peek(q, k).Some?
    ensures j < |q.items| && q.items[j].key == k && (Visited(q, k) <==> q.items[j].visited)
    ensures forall m | 0 <= m < |q.items| && q.items[m].key == k :: m == j
  {
    j := IndexOf(q.items, k);
    OnlyKey(q, j);
  }

  lemma VisitedPeeks<K, V>(q: Queue<K, V>, k: K)
    requires Valid(q) && Visited(q, k)
    ensures Peek(q, k).Some?
  {
    var j :| 0 <= j < |q.items| && q.items[j].key == k && q.items[j].visited;
    IndexIs(q.items, j);
  }

  lemma ShardKeepsMark<K(!new), V>(
    qs: Row<K, V>, row: Row<K, V>, caps: seq<nat>, route: Routing<K>, call: Call<K, V>, r: Reply<K, V>, k: K)
    requires Sound(qs, caps, route) && |row| == |qs| && Does(qs, row, caps, route, call, r)
    requires !call.Filter? && !call.Sift? && !call.Wipe? && route(call.key) == route(k)
    requires Visited(qs[route(k)], k) && Spares(route, r, k) && PeekAt(row, route, k).Some?
    ensures Visited(row[route(k)], k)
  {
    hide Sound, Inserted, Deleted, SameBut;
    HereSound(qs, caps, route, k);
    var a, b := qs[route(k)], row[route(k)];
    VisitedPeeks(a, k);
    var j := OneItem(a, k);
    HereRouted(qs, caps, route, k);
    match call
    case Look(key) => SameKeepsMark(a, b, key, k, j);
    case Probe(_) =>
    case Write(key, v) => InsertKeepsMark(a, b, caps[route(k)], key, v, r, route, k, j);
    case Delete(key) => DeleteKeepsMark(a, b, key, r, k, j);
    case LookOrWrite(key, v) =>
      if Peek(a, key).Some? { SameKeepsMark(a, b, key, k, j); }
      else { InsertKeepsMark(a, b, caps[route(k)], key, v, r, route, k, j); }
    case Amend(key, _, _) => SameKeepsMark(a, b, key, k, j);
    case _ =>
  }

  lemma InsertKeepsMark<K(!new), V>(
    a: Queue<K, V>, b: Queue<K, V>, capacity: nat, key: K, value: V, r: Reply<K, V>, route: Routing<K>, k: K, j: nat)
    requires Inserted(a, b, capacity, key, value, r.evicted) && Spares(route, r, k)
    requires j < |a.items| && a.items[j].key == k && a.items[j].visited
    requires forall m | 0 <= m < |a.items| :: route(a.items[m].key) == route(k)
    ensures Visited(b, k)
  {
    if Peek(a, key).Some? {
      SameKeepsMark(a, b, key, k, j);
    } else if |a.items| < capacity {
      assert b.items[j] == a.items[j];
    }
  }

  lemma DeleteKeepsMark<K, V>(a: Queue<K, V>, b: Queue<K, V>, key: K, r: Reply<K, V>, k: K, j: nat)
    requires Deleted(a, b, key, r) && j < |a.items| && a.items[j].key == k && a.items[j].visited && Peek(b, k).Some?
    requires forall m | 0 <= m < |a.items| && a.items[m].key == k :: m == j
    ensures Visited(b, k)
  {
    if Peek(a, key).Some? {
      var i: nat :| Removes(a, b, i) && a.items[i].key == key;
      RemoveKeepsMark(a, b, i, k, j);
    } else {
      assert b.items[j].key == k;
    }
  }

  lemma HereRouted<K(!new), V>(qs: Row<K, V>, caps: seq<nat>, route: Routing<K>, k: K)
    requires Sound(qs, caps, route)
    ensures route(k) < |qs| && forall j | 0 <= j < |qs[route(k)].items| :: route(qs[route(k)].items[j].key) == route(k)
  {
    assert SoundAt(qs, caps, route, route(k));
  }

  lemma SameKeepsMark<K, V>(a: Queue<K, V>, b: Queue<K, V>, key: K, k: K, j: nat)
    requires SameBut(a, b, key) && j < |a.items| && a.items[j].key == k && a.items[j].visited
    ensures k != key ==> Visited(b, k)
  {
    if k != key { assert b.items[j] == a.items[j]; }
  }

  lemma RemoveKeepsMark<K, V>(a: Queue<K, V>, b: Queue<K, V>, i: nat, k: K, j: nat)
    requires Removes(a, b, i) && j < |a.items| && a.items[j].key == k && a.items[j].visited && Peek(b, k).Some?
    requires forall m | 0 <= m < |a.items| && a.items[m].key == k :: m == j
    ensures Visited(b, k)
  {
    var m := IndexOf(b.items, k);
    assert b.items[m] == a.items[if m < i then m else m + 1];
  }

  lemma EndsAt<K, V>(qs: Row<K, V>, row: Row<K, V>, f: Closure<K, V>, stopped: nat, i: nat)
    requires PassesAll(qs, row, f, stopped) && stopped <= i < |qs|
    ensures |row| == |qs| && row[i] == if i == stopped then Empty() else qs[i]
  {
    hide Passed, Aborts, Drops;
  }

  lemma PassKeepsMark<K(!new), V>(
    qs: Row<K, V>, row: Row<K, V>, caps: seq<nat>, route: Routing<K>, call: Call<K, V>, r: Reply<K, V>, k: K)
    requires Sound(qs, caps, route) && |row| == |qs| && Does(qs, row, caps, route, call, r)
    requires call.Filter? || call.Sift? || call.Wipe?
    requires route(k) < |qs| && Visited(qs[route(k)], k) && PeekAt(row, route, k).Some?
    ensures Visited(row[route(k)], k)
  {
    hide Sound, KeptItems, Drops, Aborts, FromAbort, KeptOf, AllItems;
    HereSound(qs, caps, route, k);
    var i := route(k);
    var f := match call case Filter(p) => Pure(p) case Sift(f) => f case _ => Pure((k: K, v: V) => false);
    if !call.Wipe? {
      var stopped: nat :| PassesAll(qs, row, f, stopped);
      VisitedPeeks(qs[i], k);
      var j := OneItem(qs[i], k);
      if i < stopped {
        var n := |AllItems(qs[..i])|;
        assert Passed(qs[i], 0 + n, f) == Done(row[i], Drops(qs[i].items, 0 + n, f));
        assert row[i].items == KeptItems(qs[i].items, n, f);
        var m := IndexOf(row[i].items, k);
        var x := KeptFlag(qs[i].items, n, f, m);
        assert x == j && row[i].items[m].visited;
      } else {
        EndsAt(qs, row, f, stopped, i);
      }
    }
  }

  /** While these calls are made `k` stays, and nothing is evicted from its shard. */
  ghost predicate Undisturbed<K(!new), V>(
    qs: Row<K, V>, caps: seq<nat>, route: Routing<K>, calls: seq<Call<K, V>>, k: K)
    requires Sound(qs, caps, route)
    decreases |calls|
  {
    calls == [] ||
    (var n := |calls| - 1;
     var before := Play(qs, caps, route, calls[..n]).0;
     Undisturbed(qs, caps, route, calls[..n], k) &&
     var (r, row) := Step(before, caps, route, calls[n]);
     HereSound(before, caps, route, k);
     Spares(route, r, k) && PeekAt(row, route, k).Some?)
  }

  lemma {:induction false} MarkLasts<K(!new), V>(
    qs: Row<K, V>, caps: seq<nat>, route: Routing<K>, calls: seq<Call<K, V>>, k: K)
    requires Sound(qs, caps, route) && route(k) < |qs| && Visited(qs[route(k)], k)
    requires Undisturbed(qs, caps, route, calls, k)
    ensures var row := Play(qs, caps, route, calls).0; |row| == |qs| && Visited(row[route(k)], k)
    decreases |calls|
  {
    hide Sound, Step, Visited;
    if calls != [] {
      var n := |calls| - 1;
      MarkLasts(qs, caps, route, calls[..n], k);
      MarkStays(Play(qs, caps, route, calls[..n]).0, caps, route, calls[n], k);
    }
  }

  /**
   What SIEVE promises a hit, on any row a run can reach: however many calls follow that
   neither take the key out nor evict from its shard, the next eviction there is of another
   key, as long as some entry there is unvisited.
   */
  lemma HitSurvives<K(!new), V>(
    qs: Row<K, V>, caps: seq<nat>, route: Routing<K>, hit: Call<K, V>, calls: seq<Call<K, V>>, last: Call<K, V>, k: K)
    requires Sound(qs, caps, route) && Hits(hit, k) && PeekAt(qs, route, k).Some?
    requires var row := Step(qs, caps, route, hit).1;
      && Sound(row, caps, route) && Undisturbed(row, caps, route, calls, k)
      && var now := Play(row, caps, route, calls).0; route(k) < |now| && SomeUnvisited(now[route(k)])
    ensures var now := Play(Step(qs, caps, route, hit).1, caps, route, calls).0;
      var r := Step(now, caps, route, last).0;
      r.evicted.Some? ==> r.evicted.value.0 != k
  {
    hide Sound, Step, Play, Undisturbed;
    HitMarks(qs, caps, route, hit, k);
    var row := Step(qs, caps, route, hit).1;
    HereSound(row, caps, route, k);
    MarkLasts(row, caps, route, calls, k);
    var now := Play(row, caps, route, calls).0;
    NeverVisited(now, caps, route, last, k);
  }

  /** No call evicts a visited entry from a shard that has an unvisited one. */
  lemma NeverVisited<K(!new), V>(qs: Row<K, V>, caps: seq<nat>, route: Routing<K>, call: Call<K, V>, k: K)
    requires Sound(qs, caps, route) && route(k) < |qs| && SomeUnvisited(qs[route(k)]) && Visited(qs[route(k)], k)
    ensures var r := Step(qs, caps, route, call).0; r.evicted.Some? ==> r.evicted.value.0 != k
  {
    hide Sound, Insert, Visited, SomeUnvisited;
    match call
    case Write(key, v) => SparesVisited(qs, caps, route, key, v, k);
    case LookOrWrite(key, v) => SparesVisited(qs, caps, route, key, v, k);
    case _ =>
  }

  lemma SparesVisited<K(!new), V>(qs: Row<K, V>, caps: seq<nat>, route: Routing<K>, key: K, value: V, k: K)
    requires Sound(qs, caps, route) && route(k) < |qs| && SomeUnvisited(qs[route(k)]) && Visited(qs[route(k)], k)
    ensures SoundAt(qs, caps, route, route(key))
    ensures var e := Insert(qs[route(key)], caps[route(key)], key, value).0; e.Some? ==> e.value.0 != k
  {
    hide Insert, Visited, SomeUnvisited;
    var i := route(key);
    assert SoundAt(qs, caps, route, i);
    InsertPeek(qs[i], caps[i], key, value, k);
    var e := Insert(qs[i], caps[i], key, value).0;
    if e.Some? {
      var q := qs[i];
      assert q.items[IndexOf(q.items, e.value.0)].key == e.value.0;
      if i == route(k) { VictimUnvisited(q, caps[i], key, value); }
    }
  }
}

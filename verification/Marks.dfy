/**
 What each operation of the policy does to the flags, the order and the hand: a hit marks
 its entry and moves nothing, a new entry joins unvisited at the newest end, a removal
 closes the gap, and an eviction takes the first unvisited entry from the hand on.
 */
module Marks {
  import opened Sieve
  import opened SieveLaws

  /** Every entry but `key`'s, the order and the hand are as before. */
  ghost predicate SameBut<K, V>(a: Queue<K, V>, b: Queue<K, V>, key: K) {
    && b.hand == a.hand && |b.items| == |a.items|
    && forall j | 0 <= j < |a.items| ::
         b.items[j].key == a.items[j].key && (a.items[j].key != key ==> b.items[j] == a.items[j])
  }

  /** The entry of `key` has this value and this flag. */
  ghost predicate Holds<K, V>(q: Queue<K, V>, key: K, value: V, visited: bool) {
    exists j :: 0 <= j < |q.items| && q.items[j] == Item(key, value, visited)
  }

  /** `key` is there, and marked. */
  ghost predicate Visited<K, V>(q: Queue<K, V>, key: K) {
    exists j :: 0 <= j < |q.items| && q.items[j].key == key && q.items[j].visited
  }

  ghost predicate SomeUnvisited<K, V>(q: Queue<K, V>) {
    exists j :: 0 <= j < |q.items| && !q.items[j].visited
  }

  // ---- hits and misses ----

  /** A hit marks the entry and keeps its value; a miss changes nothing. */
  lemma GetMarks<K, V>(q: Queue<K, V>, key: K)
    requires Valid(q)
    ensures var (r, q') := Get(q, key);
      && SameBut(q, q', key) && (r.None? ==> q' == q)
      && (r.Some? ==> Holds(q', key, r.value, true))
  {
    var i := IndexOf(q.items, key);
    if i < |q.items| {
      assert Get(q, key).1.items[i] == Item(key, q.items[i].value, true);
      OnlyKey(q, i);
    }
  }

  /** Unique keys: no other entry has the key. */
  lemma OnlyKey<K, V>(q: Queue<K, V>, i: nat)
    requires Valid(q) && i < |q.items|
    ensures forall j | 0 <= j < |q.items| && j != i :: q.items[j].key != q.items[i].key
  {
  }

  /** A write through a reference marks the entry if the lookup promotes, and else leaves its flag. */
  lemma ChangeMarks<K, V>(q: Queue<K, V>, key: K, promote: bool, g: V -> V)
    requires Valid(q)
    ensures var (r, q') := Change(q, key, promote, g);
      && SameBut(q, q', key) && (r.None? ==> q' == q)
      && (r.Some? && promote ==> Holds(q', key, g(r.value), true))
      && (r.Some? && !promote ==> Holds(q', key, g(r.value), Visited(q, key)))
  {
    var i := IndexOf(q.items, key);
    if i < |q.items| {
      var q' := Change(q, key, promote, g).1;
      OnlyKey(q, i);
      assert q'.items[i] == Item(key, g(q.items[i].value), if promote then true else q.items[i].visited);
      assert Visited(q, key) <==> q.items[i].visited;
    }
  }

  // ---- inserts ----

  /** An insert of a key that is there writes its value and marks it. */
  lemma UpdateMarks<K, V>(q: Queue<K, V>, capacity: nat, key: K, value: V)
    requires Valid(q) && 0 < capacity && |q.items| <= capacity && Has(q, key)
    ensures var (e, q') := Insert(q, capacity, key, value);
      e == None && SameBut(q, q', key) && Holds(q', key, value, true)
  {
    var i := IndexOf(q.items, key);
    OnlyKey(q, i);
    assert Insert(q, capacity, key, value).1.items[i] == Item(key, value, true);
  }

  /** A new key with room left joins at the newest end, unvisited. */
  lemma JoinsUnvisited<K, V>(q: Queue<K, V>, capacity: nat, key: K, value: V)
    requires Valid(q) && 0 < capacity && |q.items| < capacity && !Has(q, key)
    ensures Insert(q, capacity, key, value) == (None, Queue(q.items + [Item(key, value, false)], q.hand))
  {
  }

  /** From `hand` on, cyclically, `j` comes before `v`. */
  predicate Before(hand: nat, v: nat, j: nat) {
    if hand <= v then hand <= j < v else j >= hand || j < v
  }

  /** Position `v` is the first unvisited one from the hand on, or the hand's own if all are visited. */
  ghost predicate IsVictim<K, V>(q: Queue<K, V>, v: nat) {
    && v < |q.items|
    && if SomeUnvisited(q) then
         !q.items[v].visited && forall j | 0 <= j < |q.items| && Before(q.hand, v, j) :: q.items[j].visited
       else v == q.hand
  }

  /**
   From `a` to `b` the entry at `v` was evicted and `newest` joined: those the hand passed
   lost their flags, the others kept theirs, nothing changed places, and the hand is on
   the entry after the victim, or at the oldest one.
   */
  ghost predicate Evicts<K, V>(a: Queue<K, V>, b: Queue<K, V>, v: nat, newest: Item<K, V>) {
    var n := |a.items|;
    && IsVictim(a, v) && |b.items| == n
    && b.items[n - 1] == newest
    && (forall j | 0 <= j < n - 1 ::
          var was := a.items[if j < v then j else j + 1];
          var passed := !SomeUnvisited(a) || Before(a.hand, v, if j < v then j else j + 1);
          b.items[j] == if passed then Item(was.key, was.value, false) else was)
    && b.hand == if v + 1 < n then v else 0
  }

  /** A new key in a full queue. */
  lemma InsertEvicts<K, V>(q: Queue<K, V>, capacity: nat, key: K, value: V) returns (v: nat)
    requires Valid(q) && 0 < capacity == |q.items| && !Has(q, key)
    ensures var (e, q') := Insert(q, capacity, key, value);
      && Evicts(q, q', v, Item(key, value, false))
      && e == Some((q.items[v].key, q.items[v].value))
  {
    hide Sweep, TwoPass, IsVictim, SomeUnvisited, Before;
    v := Swept(q).0;
    var swept := SweptMarks(q);
    var rest := DeleteAt(swept, v);
    var n := |q.items|;
    assert Insert(q, capacity, key, value).1.items == rest.items + [Item(key, value, false)];
    forall j | 0 <= j < n - 1 ensures rest.items[j] == swept.items[if j < v then j else j + 1] {}
  }

  /** The flags a sweep leaves. */
  lemma SweptMarks<K, V>(q: Queue<K, V>) returns (swept: Queue<K, V>)
    requires q.hand < |q.items|
    ensures swept == Swept(q).1 && |swept.items| == |q.items| && swept.hand == Swept(q).0
    ensures IsVictim(q, Swept(q).0)
    ensures forall j | 0 <= j < |q.items| ::
      var passed := !SomeUnvisited(q) || Before(q.hand, Swept(q).0, j);
      swept.items[j] == if passed then Item(q.items[j].key, q.items[j].value, false) else q.items[j]
  {
    hide Sweep, TwoPass, IsVictim, SomeUnvisited, Before;
    swept := Swept(q).1;
    SweepIsTwoPass(Flags(q.items), q.hand);
    TwoPassVictim(q);
    TwoPassFlags(q, Swept(q).0);
  }

  lemma TwoPassVictim<K, V>(q: Queue<K, V>)
    requires q.hand < |q.items|
    ensures IsVictim(q, TwoPass(Flags(q.items), q.hand).0)
  {
    var flags, n := Flags(q.items), |q.items|;
    var v := TwoPass(flags, q.hand).0;
    if !SomeUnvisited(q) {
      assert forall j | 0 <= j < n :: flags[j];
    }
  }

  lemma TwoPassFlags<K, V>(q: Queue<K, V>, v: nat)
    requires q.hand < |q.items| && v == TwoPass(Flags(q.items), q.hand).0
    ensures forall j | 0 <= j < |q.items| ::
      TwoPass(Flags(q.items), q.hand).1[j] ==
      (q.items[j].visited && SomeUnvisited(q) && !Before(q.hand, v, j))
  {
    var flags, n := Flags(q.items), |q.items|;
    if !SomeUnvisited(q) {
      assert forall j | 0 <= j < n :: flags[j];
    }
  }

  /** An eviction never takes a visited entry while another one is unvisited. */
  lemma VictimUnvisited<K, V>(q: Queue<K, V>, capacity: nat, key: K, value: V)
    requires Valid(q) && 0 < capacity && |q.items| <= capacity && SomeUnvisited(q)
    ensures var e := Insert(q, capacity, key, value).0; e.Some? ==> !Visited(q, e.value.0)
  {
    hide Insert, Evicts, IsVictim;
    InsertPeek(q, capacity, key, value, key);
    if !Has(q, key) && |q.items| == capacity {
      var v := InsertEvicts(q, capacity, key, value);
      assert IsVictim(q, v) by { EvictsVictim(q, Insert(q, capacity, key, value).1, v, Item(key, value, false)); }
      assert v < |q.items| && !q.items[v].visited by { VictimIs(q, v); }
      OnlyKey(q, v);
    }
  }

  lemma EvictsVictim<K, V>(a: Queue<K, V>, b: Queue<K, V>, v: nat, newest: Item<K, V>)
    requires Evicts(a, b, v, newest)
    ensures IsVictim(a, v)
  {
  }

  lemma VictimIs<K, V>(q: Queue<K, V>, v: nat)
    requires IsVictim(q, v)
    ensures v < |q.items| && (SomeUnvisited(q) ==> !q.items[v].visited)
  {
  }

  // ---- removals ----

  /** The gap is closed; the hand stays on its entry, or goes to the one after it, cyclically. */
  ghost predicate Removes<K, V>(a: Queue<K, V>, b: Queue<K, V>, i: nat) {
    var n := |a.items|;
    && i < n && |b.items| == n - 1
    && (forall j | 0 <= j < n - 1 :: b.items[j] == a.items[if j < i then j else j + 1])
    && (n == 1 ==> b.hand == 0)
    && (n > 1 && a.hand < n ==>
          && b.hand < n - 1
          && b.items[b.hand] == a.items[if a.hand != i then a.hand else if i + 1 < n then i + 1 else 0])
  }

  lemma RemoveCloses<K, V>(q: Queue<K, V>, key: K)
    requires Valid(q)
    ensures var (r, q') := Remove(q, key);
      && (r.None? ==> q' == q)
      && (r.Some? ==> var i := IndexOf(q.items, key); Removes(q, q', i) && q.items[i].key == key)
  {
  }
}

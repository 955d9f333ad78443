/**
 What the policy promises its caller, whatever implements it: which value a key has
 after each call, that nothing is lost or duplicated, and that retaining is the same as
 removing the failing keys in any order.
 */
module SieveLaws {
  import opened Sieve

  // ---- validity and capacity ----

  lemma InsertKeepsValid<K, V>(q: Queue<K, V>, capacity: nat, key: K, value: V)
    requires Valid(q) && 0 < capacity && |q.items| <= capacity
    ensures var q' := Insert(q, capacity, key, value).1;
      && Valid(q') && |q'.items| <= capacity
      && |q'.items| == if Has(q, key) || |q.items| == capacity then |q.items| else |q.items| + 1
  {
    hide Sweep;
    var newest := Item(key, value, false);
    if !Has(q, key) {
      if |q.items| == capacity {
        var (v, swept) := Swept(q);
        SweptUnique(q);
        MissesStay(q, key);
        DeleteKeepsValid(swept, v);
        AppendKeepsValid(DeleteAt(swept, v), newest);
      } else {
        AppendKeepsValid(q, newest);
      }
    }
  }

  /** The sweep moves no entry. */
  lemma SweptUnique<K, V>(q: Queue<K, V>)
    requires Valid(q) && q.items != []
    ensures var swept := Swept(q).1;
      UniqueKeys(swept.items) && forall i | 0 <= i < |q.items| :: swept.items[i].key == q.items[i].key
  {
    hide Sweep;
  }

  lemma GetKeepsValid<K, V>(q: Queue<K, V>, key: K)
    requires Valid(q)
    ensures Valid(Get(q, key).1) && |Get(q, key).1.items| == |q.items|
  {
  }

  // ---- what a lookup sees after a call ----

  /** Unique keys: the position of a key is the only one. */
  lemma IndexIs<K, V>(items: seq<Item<K, V>>, i: nat)
    requires UniqueKeys(items) && i < |items|
    ensures IndexOf(items, items[i].key) == i
  {
  }

  /** A hit changes no lookup. */
  lemma GetPeek<K, V>(q: Queue<K, V>, key: K, x: K)
    requires Valid(q)
    ensures Peek(Get(q, key).1, x) == Peek(q, x) && Get(q, key).0 == Peek(q, key)
  {
    var q' := Get(q, key).1;
    SameKeys(q.items, q'.items, x);
  }

  /** Writing through a reference changes one lookup and no other. */
  lemma ChangePeek<K, V>(q: Queue<K, V>, key: K, promote: bool, g: V -> V, x: K)
    requires Valid(q)
    ensures var (r, q') := Change(q, key, promote, g);
      && r == Peek(q, key) && Valid(q') && |q'.items| == |q.items|
      && Peek(q', x) == (if x == key && r.Some? then Some(g(r.value)) else Peek(q, x))
  {
    var q' := Change(q, key, promote, g).1;
    SameKeys(q.items, q'.items, x);
  }

  lemma SameKeys<K, V>(a: seq<Item<K, V>>, b: seq<Item<K, V>>, x: K)
    requires |a| == |b| && forall i | 0 <= i < |a| :: a[i].key == b[i].key
    ensures IndexOf(a, x) == IndexOf(b, x)
  {
    var i, j := IndexOf(a, x), IndexOf(b, x);
    if i < |a| { assert b[i].key == x; }
  }

  lemma DeletePeek<K, V>(q: Queue<K, V>, i: nat, x: K)
    requires UniqueKeys(q.items) && i < |q.items|
    ensures Peek(DeleteAt(q, i), x) == if x == q.items[i].key then None else Peek(q, x)
  {
    var rest := DeleteAt(q, i).items;
    var k := IndexOf(q.items, x);
    if k < |q.items| && k != i {
      var j := if k < i then k else k - 1;
      assert rest[j] == q.items[k];
      DeleteKeepsValid(q, i);
      IndexIs(rest, j);
    } else {
      assert forall j | 0 <= j < |rest| :: rest[j].key != x;
    }
  }

  /** Removing a key makes it absent and changes nothing else. */
  lemma RemovePeek<K, V>(q: Queue<K, V>, key: K, x: K)
    requires Valid(q)
    ensures Valid(Remove(q, key).1) && |Remove(q, key).1.items| <= |q.items|
    ensures Peek(Remove(q, key).1, x) == if x == key then None else Peek(q, x)
    ensures Remove(q, key).0 == Peek(q, key)
  {
    var i := IndexOf(q.items, key);
    if i < |q.items| {
      DeletePeek(q, i, x);
      DeleteKeepsValid(q, i);
    }
  }

  lemma AppendPeek<K, V>(items: seq<Item<K, V>>, hand: nat, item: Item<K, V>, x: K)
    requires IndexOf(items, item.key) == |items|
    ensures Peek(Queue(items + [item], hand), x) ==
            if x == item.key then Some(item.value) else Peek(Queue(items, hand), x)
  {
    var all := items + [item];
    var k := IndexOf(items, x);
    var j := IndexOf(all, x);
    if k < |items| {
      assert all[k].key == x;
      assert j == k;
    } else if x == item.key {
      assert all[|items|].key == x;
    }
  }

  /**
   Inserting makes the key present with its new value, and the only other key that
   changes is the one reported as evicted: it was present, with the reported value.
   */
  lemma InsertPeek<K, V>(q: Queue<K, V>, capacity: nat, key: K, value: V, x: K)
    requires Valid(q) && 0 < capacity && |q.items| <= capacity
    ensures var (evicted, q') := Insert(q, capacity, key, value);
      && Peek(q', x) ==
         (if x == key then Some(value)
          else if evicted.Some? && evicted.value.0 == x then None
          else Peek(q, x))
      && (evicted.Some? ==> evicted.value.0 != key && Peek(q, evicted.value.0) == Some(evicted.value.1))
      && (evicted.Some? <==> !Has(q, key) && |q.items| == capacity)
  {
    hide Sweep;
    var i := IndexOf(q.items, key);
    if i < |q.items| {
      SameKeys(q.items, q.items[i := q.items[i].(value := value, visited := true)], x);
    } else if |q.items| < capacity {
      AppendPeek(q.items, q.hand, Item(key, value, false), x);
    } else {
      var (v, swept) := Swept(q);
      var rest := DeleteAt(swept, v);
      SweptUnique(q);
      SweptPeek(q, x);
      SweptPeek(q, key);
      IndexIs(q.items, v);
      DeletePeek(swept, v, x);
      MissesStay(q, key);
      hide DeleteAt, WithFlags, Swept;
      AppendPeek(rest.items, rest.hand, Item(key, value, false), x);
    }
  }

  lemma SweptPeek<K, V>(q: Queue<K, V>, x: K)
    requires Valid(q) && q.items != []
    ensures Peek(Swept(q).1, x) == Peek(q, x)
  {
    hide Sweep;
    SweptUnique(q);
    SameKeys(q.items, Swept(q).1.items, x);
  }

  // ---- retain and remove in any order ----

  /** The items whose key is not in `gone`, in order. */
  function Kept<K(==), V>(items: seq<Item<K, V>>, gone: set<K>): (r: seq<Item<K, V>>)
    ensures |r| <= |items|
  {
    if items == [] then []
    else if items[0].key in gone then Kept(items[1..], gone)
    else [items[0]] + Kept(items[1..], gone)
  }

  /**
   The survivors of deleting `gone`: in order, and with the hand on the first survivor
   at or after it, or back at the oldest one when there is none.
   */
  function Survive<K(==), V>(q: Queue<K, V>, gone: set<K>): Queue<K, V>
    requires q.hand <= |q.items|
  {
    var below := |Kept(q.items[..q.hand], gone)|;
    var all := Kept(q.items, gone);
    Queue(all, if below < |all| then below else 0)
  }

  lemma {:induction false} KeptConcat<K, V>(a: seq<Item<K, V>>, b: seq<Item<K, V>>, gone: set<K>)
    ensures Kept(a + b, gone) == Kept(a, gone) + Kept(b, gone)
  {
    if a == [] {
      assert a + b == b;
    } else {
      assert (a + b)[1..] == a[1..] + b;
      KeptConcat(a[1..], b, gone);
    }
  }

  lemma {:induction false} KeptTwice<K, V>(items: seq<Item<K, V>>, a: set<K>, b: set<K>)
    ensures Kept(Kept(items, a), b) == Kept(items, a + b)
  {
    if items != [] {
      KeptTwice(items[1..], a, b);
      if items[0].key !in a {
        assert ([items[0]] + Kept(items[1..], a))[1..] == Kept(items[1..], a);
      }
    }
  }

  /** Deleting in two rounds is deleting at once. */
  lemma SurviveTwice<K, V>(q: Queue<K, V>, a: set<K>, b: set<K>)
    requires q.hand <= |q.items|
    ensures Survive(q, a).hand <= |Survive(q, a).items|
    ensures Survive(Survive(q, a), b) == Survive(q, a + b)
  {
    var low, high := q.items[..q.hand], q.items[q.hand..];
    assert q.items == low + high;
    KeptConcat(low, high, a);
    KeptConcat(low, high, a + b);
    KeptTwice(q.items, a, b);
    KeptTwice(low, a, b);
    KeptTwice(high, a, b);
    var first := Survive(q, a);
    if |Kept(low, a)| < |first.items| {
      assert first.items[..first.hand] == Kept(low, a);
    } else {
      assert Kept(high, a) == [];
      assert first.items[..0] == [];
    }
  }

  lemma WithoutCons<T>(s: seq<T>, i: nat)
    requires i < |s|
    ensures Without(s, i) == if i == 0 then s[1..] else [s[0]] + Without(s[1..], i - 1)
  {
  }

  lemma {:induction false} KeptWithoutOne<K, V>(items: seq<Item<K, V>>, key: K)
    requires UniqueKeys(items)
    ensures var i := IndexOf(items, key);
      Kept(items, {key}) == if i < |items| then Without(items, i) else items
  {
    hide Without;
    if items != [] {
      var i := IndexOf(items, key);
      if i < |items| { WithoutCons(items, i); }
      if items[0].key == key {
        KeptAll(items[1..], {key});
      } else {
        KeptWithoutOne(items[1..], key);
        assert items == [items[0]] + items[1..];
      }
    }
  }

  /** Removing one key. */
  lemma RemoveIsSurvive<K, V>(q: Queue<K, V>, key: K)
    requires Valid(q)
    ensures Remove(q, key).1 == Survive(q, {key})
  {
    hide Kept;
    var low := q.items[..q.hand];
    assert UniqueKeys(low);
    KeptWithoutOne(q.items, key);
    var i := IndexOf(q.items, key);
    if i < q.hand {
      KeptWithoutOne(low, key);
      IndexIs(low, i);
      assert low[i].key == key;
    } else {
      KeptAll(low, {key});
    }
  }

  function RemoveAll<K(==), V>(q: Queue<K, V>, order: seq<K>): Queue<K, V>
    decreases |order|
  {
    if order == [] then q else RemoveAll(Remove(q, order[0]).1, order[1..])
  }

  ghost function KeySet<K>(order: seq<K>): set<K> { set k | k in order }

  /** Removing a list of keys one at a time is deleting them all, whatever the order. */
  lemma {:induction false} RemoveAllIsSurvive<K, V>(q: Queue<K, V>, order: seq<K>)
    requires Valid(q)
    ensures RemoveAll(q, order) == Survive(q, KeySet(order))
    decreases |order|
  {
    if order == [] {
      KeptAll(q.items, KeySet(order));
      KeptAll(q.items[..q.hand], KeySet(order));
    } else {
      RemoveIsSurvive(q, order[0]);
      RemovePeek(q, order[0], order[0]);
      RemoveAllIsSurvive(Remove(q, order[0]).1, order[1..]);
      SurviveTwice(q, {order[0]}, KeySet(order[1..]));
      assert KeySet(order) == {order[0]} + KeySet(order[1..]);
    }
  }

  lemma {:induction false} KeptAll<K, V>(items: seq<Item<K, V>>, gone: set<K>)
    requires forall i | 0 <= i < |items| :: items[i].key !in gone
    ensures Kept(items, gone) == items
  {
    if items != [] { KeptAll(items[1..], gone); }
  }

  /** The hand lands on the next survivor: the first one at or after its old place. */
  lemma HandOnNextSurvivor<K, V>(q: Queue<K, V>, gone: set<K>, j: nat)
    requires q.hand <= j < |q.items| && q.items[j].key !in gone
    requires forall i | q.hand <= i < j :: q.items[i].key in gone
    ensures var s := Survive(q, gone); s.hand < |s.items| && s.items[s.hand] == q.items[j]
  {
    var low, gap, rest := q.items[..q.hand], q.items[q.hand..j], q.items[j..];
    assert q.items == low + (gap + rest);
    KeptConcat(low, gap + rest, gone);
    KeptConcat(gap, rest, gone);
    KeptNone(gap, gone);
  }

  /** With no survivor from the hand on, it goes back to the oldest entry. */
  lemma HandWraps<K, V>(q: Queue<K, V>, gone: set<K>)
    requires q.hand <= |q.items|
    requires forall i | q.hand <= i < |q.items| :: q.items[i].key in gone
    ensures Survive(q, gone).hand == 0
  {
    assert q.items == q.items[..q.hand] + q.items[q.hand..];
    KeptConcat(q.items[..q.hand], q.items[q.hand..], gone);
    KeptNone(q.items[q.hand..], gone);
  }

  lemma {:induction false} KeptNone<K, V>(items: seq<Item<K, V>>, gone: set<K>)
    requires forall i | 0 <= i < |items| :: items[i].key in gone
    ensures Kept(items, gone) == []
  {
    if items != [] { KeptNone(items[1..], gone); }
  }

  /** A closure that only looks: it keeps the value and answers by `p`. */
  function Pure<K, V>(p: (K, V) -> bool): Closure<K, V> {
    (n: nat, k: K, v: V) => if p(k, v) then Keep(v) else Discard(v)
  }

  ghost function Failing<K, V>(items: seq<Item<K, V>>, p: (K, V) -> bool): set<K> {
    set i | 0 <= i < |items| && !p(items[i].key, items[i].value) :: items[i].key
  }

  lemma {:induction false} RetainFromIsSurvive<K, V>(
    q: Queue<K, V>, i: nat, calls: nat, p: (K, V) -> bool, dropped: seq<Entry<K, V>>)
    requires Valid(q) && i <= |q.items|
    requires forall j | 0 <= j < i :: p(q.items[j].key, q.items[j].value)
    ensures var r := RetainFrom(q, i, calls, Pure(p), dropped);
      r.Done? && r.queue == Survive(q, Failing(q.items, p))
    decreases |q.items| - i
  {
    var gone := Failing(q.items, p);
    if i == |q.items| {
      KeptAll(q.items, gone);
      KeptAll(q.items[..q.hand], gone);
    } else {
      var item := q.items[i];
      RetainStep(q, i, calls, Pure(p), dropped);
      assert q.items[i := item.(value := item.value)] == q.items;
      if p(item.key, item.value) {
        RetainFromIsSurvive(q, i + 1, calls + 1, p, dropped);
      } else {
        var q' := DeleteAt(q, i);
        IndexIs(q.items, i);
        DeleteKeepsValid(q, i);
        RemoveIsSurvive(q, item.key);
        RetainFromIsSurvive(q', i, calls + 1, p, dropped + [Entry(item.key, item.value)]);
        FailingWithout(q.items, i, p);
        SurviveTwice(q, {item.key}, Failing(q'.items, p));
      }
    }
  }

  lemma FailingWithout<K, V>(items: seq<Item<K, V>>, i: nat, p: (K, V) -> bool)
    requires i < |items| && !p(items[i].key, items[i].value)
    ensures Failing(items, p) == {items[i].key} + Failing(Without(items, i), p)
  {
    var rest := Without(items, i);
    forall k | k in Failing(items, p) && k != items[i].key ensures k in Failing(rest, p) {
      var j :| 0 <= j < |items| && !p(items[j].key, items[j].value) && items[j].key == k;
      assert rest[if j < i then j else j - 1] == items[j];
    }
    forall k | k in Failing(rest, p) ensures k in Failing(items, p) {
      var j :| 0 <= j < |rest| && !p(rest[j].key, rest[j].value) && rest[j].key == k;
      assert rest[j] == items[if j < i then j else j + 1];
    }
  }

  /**
   Retaining by a predicate leaves the queue that removing the failing keys one at a
   time leaves, in whatever order they are removed.
   */
  lemma RetainIsRemovalInAnyOrder<K, V>(q: Queue<K, V>, p: (K, V) -> bool, order: seq<K>)
    requires Valid(q) && KeySet(order) == Failing(q.items, p)
    ensures var r := Retain(q, Pure(p)); r.Done? && r.queue == RemoveAll(q, order)
  {
    RetainFromIsSurvive(q, 0, 0, p, []);
    RemoveAllIsSurvive(q, order);
  }

  // ---- nothing is lost or dropped twice ----

  /** The entries with the values the closure leaves in them, up to an abort; it has been called `calls` times. */
  function AsLeft<K, V>(items: seq<Item<K, V>>, calls: nat, f: Closure<K, V>): (r: seq<Entry<K, V>>)
    ensures |r| == |items| && forall j | 0 <= j < |r| :: r[j].key == items[j].key
  {
    if items == [] then []
    else
      var verdict := f(calls, items[0].key, items[0].value);
      [Entry(items[0].key, verdict.value)] +
      if verdict.Abort? then Entries(items[1..]) else AsLeft(items[1..], calls + 1, f)
  }

  /** What is left after a retain: in the queue, or among the dropped entries. */
  ghost function Accounted<K, V>(r: Outcome<K, V>): multiset<Entry<K, V>> {
    match r
    case Done(q, dropped) => multiset(Entries(q.items)) + multiset(dropped)
    case Aborted(dropped) => multiset(dropped)
  }

  /**
   For every closure, aborting or not: each entry, with the value the closure left in it,
   is afterwards in the queue or was dropped, exactly once; on an abort every entry was
   dropped exactly once.
   */
  lemma RetainConserves<K, V>(q: Queue<K, V>, f: Closure<K, V>)
    ensures Accounted(Retain(q, f)) == multiset(AsLeft(q.items, 0, f))
  {
    ConservesFrom(q, 0, 0, f, []);
    assert q.items[0..] == q.items && Entries(q.items[..0]) == [];
  }

  lemma {:induction false} ConservesFrom<K, V>(
    q: Queue<K, V>, i: nat, calls: nat, f: Closure<K, V>, dropped: seq<Entry<K, V>>)
    requires i <= |q.items|
    ensures Accounted(RetainFrom(q, i, calls, f, dropped)) ==
            multiset(Entries(q.items[..i])) + multiset(AsLeft(q.items[i..], calls, f)) + multiset(dropped)
    decreases |q.items| - i
  {
    hide RetainFrom, DeleteAt, Entries, AsLeft;
    if i == |q.items| {
      RetainEnd(q, i, calls, f, dropped);
      assert q.items[..i] == q.items;
    } else {
      RetainStep(q, i, calls, f, dropped);
      var item := q.items[i];
      var verdict := f(calls, item.key, item.value);
      var q' := q.(items := q.items[i := item.(value := verdict.value)]);
      var low, here := Entries(q.items[..i]), [Entry(item.key, verdict.value)];
      var left := LeftStep(q.items, i, calls, f);
      CutAt(q.items, i, verdict.value);
      Regrouped(low, here, left, dropped);
      match verdict
      case Keep(_) => ConservesFrom(q', i + 1, calls + 1, f, dropped);
      case Discard(v) =>
        var rest := DeletedAt(q, i);
        ConservesFrom(rest, i, calls + 1, f, dropped + here);
      case Abort(_) =>
    }
  }

  /** The closure's next call, and what it leaves after that. */
  lemma LeftStep<K, V>(items: seq<Item<K, V>>, i: nat, calls: nat, f: Closure<K, V>) returns (left: seq<Entry<K, V>>)
    requires i < |items|
    ensures var verdict := f(calls, items[i].key, items[i].value);
      && AsLeft(items[i..], calls, f) == [Entry(items[i].key, verdict.value)] + left
      && left == if verdict.Abort? then Entries(items[i + 1..]) else AsLeft(items[i + 1..], calls + 1, f)
  {
    hide Entries;
    assert items[i..][1..] == items[i + 1..] && items[i..][0] == items[i];
    left := if f(calls, items[i].key, items[i].value).Abort? then Entries(items[i + 1..])
            else AsLeft(items[i + 1..], calls + 1, f);
  }

  /** A queue before, at and after position `i`, with a new value there. */
  lemma CutAt<K, V>(items: seq<Item<K, V>>, i: nat, v: V)
    requires i < |items|
    ensures var items', here := items[i := items[i].(value := v)], [Entry(items[i].key, v)];
      && items'[i + 1..] == items[i + 1..] && Entries(items'[..i + 1]) == Entries(items[..i]) + here
      && Entries(items') == Entries(items[..i]) + here + Entries(items[i + 1..])
      && Without(items', i) == Without(items, i)
    ensures Without(items, i)[..i] == items[..i] && Without(items, i)[i..] == items[i + 1..]
  {
  }

  /** One entry between the others: counted with what comes before, after, or with the dropped ones. */
  lemma Regrouped<T>(low: seq<T>, here: seq<T>, left: seq<T>, dropped: seq<T>)
    ensures var all := multiset(low) + multiset(here + left) + multiset(dropped);
      && multiset(low + here) + multiset(left) + multiset(dropped) == all
      && multiset(low) + multiset(left) + multiset(dropped + here) == all
      && multiset(dropped + (low + here + left)) == all
  {
  }

  lemma DeletedAt<K, V>(q: Queue<K, V>, i: nat) returns (rest: Queue<K, V>)
    requires i < |q.items|
    ensures rest == DeleteAt(q, i) && rest.items == Without(q.items, i)
    ensures forall v :: DeleteAt(q.(items := q.items[i := q.items[i].(value := v)]), i) == rest
  {
    rest := DeleteAt(q, i);
    forall v ensures DeleteAt(q.(items := q.items[i := q.items[i].(value := v)]), i) == rest { CutAt(q.items, i, v); }
  }

  // ---- the hand ----

  /** Deleting another entry leaves the hand on its entry; deleting its own moves it to the cyclic successor. */
  lemma HandAfterDelete<K, V>(q: Queue<K, V>, i: nat)
    requires q.hand < |q.items| && i < |q.items| && |q.items| > 1
    ensures var q' := DeleteAt(q, i);
      q'.items[q'.hand] == q.items[if i != q.hand then q.hand else if i + 1 < |q.items| then i + 1 else 0]
  {
  }
}

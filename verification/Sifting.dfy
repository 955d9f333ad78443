/**
 What a retain with any closure, one with state that changes values and may abort, leaves
 a caller who watched it: the entries the closure kept, with the values it left in them,
 and the entries that were dropped.
 */
module Sifting {
  import opened Sieve
  import opened SieveLaws

  /** The entries the closure keeps, with the values it leaves, until it aborts. */
  function KeptOf<K, V>(items: seq<Item<K, V>>, calls: nat, f: Closure<K, V>): seq<Entry<K, V>> {
    if items == [] then []
    else
      match f(calls, items[0].key, items[0].value)
      case Keep(v) => [Entry(items[0].key, v)] + KeptOf(items[1..], calls + 1, f)
      case Discard(_) => KeptOf(items[1..], calls + 1, f)
      case Abort(_) => []
  }

  /** The value of the first entry with the key. */
  function Lookup<K(==), V>(es: seq<Entry<K, V>>, x: K): Option<V> {
    if es == [] then None else if es[0].key == x then Some(es[0].value) else Lookup(es[1..], x)
  }

  /** What is written for `x` afterwards: nothing if it was dropped, else what it was kept with. */
  function AfterSift<K(==), V>(kept: seq<Entry<K, V>>, dropped: seq<Entry<K, V>>, x: K, was: Option<V>): Option<V> {
    if Lookup(dropped, x).Some? then None
    else if Lookup(kept, x).Some? then Lookup(kept, x)
    else was
  }

  lemma {:induction false} LookupConcat<K, V>(a: seq<Entry<K, V>>, b: seq<Entry<K, V>>, x: K)
    ensures Lookup(a + b, x) == if Lookup(a, x).Some? then Lookup(a, x) else Lookup(b, x)
  {
    if a == [] {
      assert a + b == b;
    } else {
      assert (a + b)[1..] == a[1..] + b;
      LookupConcat(a[1..], b, x);
    }
  }

  lemma {:induction false} LookupEntries<K, V>(items: seq<Item<K, V>>, x: K)
    ensures Lookup(Entries(items), x).Some? <==> IndexOf(items, x) < |items|
  {
    if items != [] {
      assert Entries(items)[1..] == Entries(items[1..]);
      LookupEntries(items[1..], x);
    }
  }

  /** `x` is not at a position from `i` on. */
  ghost predicate NotFrom<K, V>(items: seq<Item<K, V>>, i: nat, x: K) {
    var m := IndexOf(items, x); m < i || m >= |items|
  }

  /** What the rest of the pass does to the lookup of `x`. */
  ghost predicate Sifted<K, V>(
    q: Queue<K, V>, i: nat, calls: nat, f: Closure<K, V>, dropped: seq<Entry<K, V>>, x: K)
    requires i <= |q.items|
  {
    var kept, o := KeptOf(q.items[i..], calls, f), RetainFrom(q, i, calls, f, dropped);
    && dropped <= o.dropped
    && var more := o.dropped[|dropped|..];
       && (o.Done? ==> Valid(o.queue) && Peek(o.queue, x) == AfterSift(kept, more, x, Peek(q, x)))
       && (o.Done? && NotFrom(q.items, i, x) ==> Lookup(more, x).None?)
       && (NotFrom(q.items, i, x) ==> Lookup(kept, x).None?)
       && (o.Aborted? ==> (Lookup(more, x).Some? <==> IndexOf(q.items, x) < |q.items|))
  }

  lemma {:induction false} SiftFrom<K, V>(
    q: Queue<K, V>, i: nat, calls: nat, f: Closure<K, V>, dropped: seq<Entry<K, V>>, x: K)
    requires Valid(q) && i <= |q.items|
    ensures Sifted(q, i, calls, f, dropped, x)
    decreases |q.items| - i
  {
    hide RetainFrom, AfterSift;
    if i == |q.items| {
      RetainEnd(q, i, calls, f, dropped);
      NothingSifted(x, Peek(q, x));
      assert q.items[i..] == [] && dropped[|dropped|..] == [];
    } else {
      RetainStep(q, i, calls, f, dropped);
      var item := q.items[i];
      match f(calls, item.key, item.value)
      case Keep(v) => KeepSifts(q, i, calls, f, dropped, x, v);
      case Discard(v) => DiscardSifts(q, i, calls, f, dropped, x, v);
      case Abort(v) => AbortSifts(q, i, calls, f, dropped, x, v);
    }
  }

  lemma NothingSifted<K, V>(x: K, was: Option<V>)
    ensures AfterSift([], [], x, was) == was && Lookup<K, V>([], x).None?
  {
  }

  /** A key the pass does not meet stays as it was. */
  lemma NotMet<K, V>(kept: seq<Entry<K, V>>, dropped: seq<Entry<K, V>>, x: K, was: Option<V>)
    requires Lookup(kept, x).None? && Lookup(dropped, x).None?
    ensures AfterSift(kept, dropped, x, was) == was
  {
  }

  lemma KeepSifts<K, V>(
    q: Queue<K, V>, i: nat, calls: nat, f: Closure<K, V>, dropped: seq<Entry<K, V>>, x: K, v: V)
    requires Valid(q) && i < |q.items| && f(calls, q.items[i].key, q.items[i].value) == Keep(v)
    ensures Sifted(q, i, calls, f, dropped, x)
    decreases |q.items| - i, 0
  {
    hide RetainFrom, Peek;
    var item := q.items[i];
    var q' := q.(items := q.items[i := item.(value := v)]);
    RetainStep(q, i, calls, f, dropped);
    SiftFrom(q', i + 1, calls + 1, f, dropped, x);
    assert q.items[i..][1..] == q'.items[i + 1..];
    NewValue(q, i, v, x);
  }

  /** A new value under the same key. */
  lemma NewValue<K, V>(q: Queue<K, V>, i: nat, v: V, x: K)
    requires Valid(q) && i < |q.items|
    ensures var q' := q.(items := q.items[i := q.items[i].(value := v)]);
      && Valid(q') && IndexOf(q'.items, x) == IndexOf(q.items, x)
      && Peek(q', x) == (if x == q.items[i].key then Some(v) else Peek(q, x))
    ensures x == q.items[i].key ==> IndexOf(q.items, x) == i
  {
    var items' := q.items[i := q.items[i].(value := v)];
    IndexIs(q.items, i);
    IndexIs(items', i);
    var m := IndexOf(q.items, x);
    if m < |q.items| { IndexIs(items', m); }
  }

  lemma DiscardSifts<K, V>(
    q: Queue<K, V>, i: nat, calls: nat, f: Closure<K, V>, dropped: seq<Entry<K, V>>, x: K, v: V)
    requires Valid(q) && i < |q.items| && f(calls, q.items[i].key, q.items[i].value) == Discard(v)
    ensures Sifted(q, i, calls, f, dropped, x)
    decreases |q.items| - i, 0
  {
    hide RetainFrom, Peek, KeptOf, Lookup, IndexOf, DeleteAt, AfterSift, Valid;
    var e := Entry(q.items[i].key, v);
    var q' := Discarded(q, i, calls, f, dropped, v);
    SiftFrom(q', i, calls + 1, f, dropped + [e], x);
    OneMore(dropped, e, RetainFrom(q, i, calls, f, dropped).dropped, x);
    var rest := RetainFrom(q, i, calls, f, dropped).dropped[|dropped| + 1..];
    DropFirst(KeptOf(q.items[i..], calls, f), rest, e, x, Peek(q, x));
    GoneKey(q, i, x);
  }

  /** The queue after a discard, and how the rest goes on. */
  lemma Discarded<K, V>(
    q: Queue<K, V>, i: nat, calls: nat, f: Closure<K, V>, dropped: seq<Entry<K, V>>, v: V) returns (q': Queue<K, V>)
    requires Valid(q) && i < |q.items| && f(calls, q.items[i].key, q.items[i].value) == Discard(v)
    ensures q' == DeleteAt(q, i) && Valid(q') && |q'.items| == |q.items| - 1
    ensures KeptOf(q.items[i..], calls, f) == KeptOf(q'.items[i..], calls + 1, f)
    ensures RetainFrom(q, i, calls, f, dropped) ==
            RetainFrom(q', i, calls + 1, f, dropped + [Entry(q.items[i].key, v)])
  {
    hide RetainFrom;
    q' := DeleteAt(q, i);
    RetainStep(q, i, calls, f, dropped);
    assert Without(q.items[i := q.items[i].(value := v)], i) == Without(q.items, i);
    DeleteKeepsValid(q, i);
    assert q.items[i..][1..] == q'.items[i..] && q.items[i..][0] == q.items[i];
  }

  lemma OneMore<K, V>(dropped: seq<Entry<K, V>>, e: Entry<K, V>, all: seq<Entry<K, V>>, x: K)
    requires dropped + [e] <= all
    ensures dropped <= all && all[|dropped + [e]|..] == all[|dropped| + 1..]
    ensures all[|dropped|..] == [e] + all[|dropped| + 1..]
    ensures Lookup(all[|dropped|..], x) == if x == e.key then Some(e.value) else Lookup(all[|dropped| + 1..], x)
  {
    assert all[|dropped|] == (dropped + [e])[|dropped|];
    assert ([e] + all[|dropped| + 1..])[1..] == all[|dropped| + 1..];
  }

  lemma DropFirst<K, V>(
    kept: seq<Entry<K, V>>, rest: seq<Entry<K, V>>, e: Entry<K, V>, x: K, was: Option<V>)
    ensures AfterSift(kept, [e] + rest, x, was) == if x == e.key then None else AfterSift(kept, rest, x, was)
    ensures Lookup(rest, x).None? && Lookup(kept, x).None? ==> AfterSift(kept, rest, x, None).None?
  {
    assert ([e] + rest)[1..] == rest;
  }

  lemma GoneKey<K, V>(q: Queue<K, V>, i: nat, x: K)
    requires Valid(q) && i < |q.items|
    ensures var q' := DeleteAt(q, i);
      && Peek(q', x) == (if x == q.items[i].key then None else Peek(q, x))
      && (x != q.items[i].key && NotFrom(q.items, i, x) ==> NotFrom(q'.items, i, x))
      && (x == q.items[i].key ==> IndexOf(q.items, x) == i && NotFrom(q'.items, i, x))
      && (x != q.items[i].key ==> (IndexOf(q'.items, x) < |q'.items| <==> IndexOf(q.items, x) < |q.items|))
  {
    IndexIs(q.items, i);
    DeletePeek(q, i, x);
    var q', m := DeleteAt(q, i), IndexOf(q.items, x);
    DeleteKeepsValid(q, i);
    if m < |q.items| && m != i { IndexIs(q'.items, if m < i then m else m - 1); }
    var n := IndexOf(q'.items, x);
    if n < |q'.items| { IndexIs(q.items, if n < i then n else n + 1); }
  }

  lemma AbortSifts<K, V>(
    q: Queue<K, V>, i: nat, calls: nat, f: Closure<K, V>, dropped: seq<Entry<K, V>>, x: K, v: V)
    requires Valid(q) && i < |q.items| && f(calls, q.items[i].key, q.items[i].value) == Abort(v)
    ensures Sifted(q, i, calls, f, dropped, x)
  {
    hide RetainFrom;
    RetainStep(q, i, calls, f, dropped);
    var items' := q.items[i := q.items[i].(value := v)];
    LookupEntries(items', x);
    NewValue(q, i, v, x);
    assert (dropped + Entries(items'))[|dropped|..] == Entries(items');
  }

  /** One queue, from the start. */
  lemma SiftPeek<K, V>(q: Queue<K, V>, f: Closure<K, V>, x: K)
    requires Valid(q)
    ensures var kept, o := KeptOf(q.items, 0, f), Retain(q, f);
      && (o.Done? ==> Valid(o.queue) && Peek(o.queue, x) == AfterSift(kept, o.dropped, x, Peek(q, x)))
      && (Peek(q, x).None? ==> Lookup(kept, x).None? && Lookup(o.dropped, x).None?)
      && (o.Aborted? ==> AfterSift(kept, o.dropped, x, Peek(q, x)).None?)
  {
    hide RetainFrom;
    SiftFrom(q, 0, 0, f, [], x);
    assert q.items[0..] == q.items;
    var all := Retain(q, f).dropped;
    assert all[0..] == all;
  }
}

/**
 A retain read as one pass over a row of entries: the closure's call number `n` is on the
 `n`-th entry, whatever shard it is in; what it keeps stays in order with its flag, what
 it discards is dropped in order, and an abort drops the rest of the shard it happens in.
 */
module OnePass {
  import opened Sieve
  import opened SieveLaws
  import opened Sifting

  /** The entries kept, with the values left in them and the flags they had, up to an abort. */
  function KeptItems<K, V>(items: seq<Item<K, V>>, calls: nat, f: Closure<K, V>): (r: seq<Item<K, V>>)
    ensures |r| <= |items|
  {
    if items == [] then []
    else
      match f(calls, items[0].key, items[0].value)
      case Keep(v) => [items[0].(value := v)] + KeptItems(items[1..], calls + 1, f)
      case Discard(_) => KeptItems(items[1..], calls + 1, f)
      case Abort(_) => []
  }

  /** The entries discarded, in order, up to an abort. */
  function Drops<K, V>(items: seq<Item<K, V>>, calls: nat, f: Closure<K, V>): seq<Entry<K, V>> {
    if items == [] then []
    else
      match f(calls, items[0].key, items[0].value)
      case Keep(_) => Drops(items[1..], calls + 1, f)
      case Discard(v) => [Entry(items[0].key, v)] + Drops(items[1..], calls + 1, f)
      case Abort(_) => []
  }

  /** The entry the closure aborts on and those after it. */
  function FromAbort<K, V>(items: seq<Item<K, V>>, calls: nat, f: Closure<K, V>): seq<Entry<K, V>> {
    if items == [] then []
    else
      match f(calls, items[0].key, items[0].value)
      case Abort(v) => [Entry(items[0].key, v)] + Entries(items[1..])
      case _ => FromAbort(items[1..], calls + 1, f)
  }

  predicate Aborts<K, V>(items: seq<Item<K, V>>, calls: nat, f: Closure<K, V>) {
    items != [] && (f(calls, items[0].key, items[0].value).Abort? || Aborts(items[1..], calls + 1, f))
  }

  /** The hand lands on the first survivor at or after it, or on the oldest. */
  function HandAfter<K, V>(q: Queue<K, V>, calls: nat, f: Closure<K, V>): nat
    requires q.hand <= |q.items|
  {
    InRange(|KeptItems(q.items[..q.hand], calls, f)|, |KeptItems(q.items, calls, f)|)
  }

  /** One queue, the closure having been called `calls` times before. */
  function Passed<K, V>(q: Queue<K, V>, calls: nat, f: Closure<K, V>): Outcome<K, V>
    requires q.hand <= |q.items|
  {
    var kept, gone := KeptItems(q.items, calls, f), Drops(q.items, calls, f);
    if Aborts(q.items, calls, f) then Aborted(gone + Entries(kept) + FromAbort(q.items, calls, f))
    else Done(Queue(kept, HandAfter(q, calls, f)), gone)
  }

  // ---- a queue, one entry deleted at a time ----

  /** The rest of the pass from position `i`, all before it having been kept. */
  ghost predicate PassesFrom<K, V>(
    q: Queue<K, V>, i: nat, calls: nat, f: Closure<K, V>, dropped: seq<Entry<K, V>>)
    requires q.hand <= |q.items| && i <= |q.items|
  {
    var low, high := q.items[..i], q.items[i..];
    var kept, gone := KeptItems(high, calls, f), Drops(high, calls, f);
    var below := if q.hand <= i then q.hand else i + |KeptItems(q.items[i..q.hand], calls, f)|;
    RetainFrom(q, i, calls, f, dropped) ==
    if Aborts(high, calls, f) then Aborted(dropped + gone + (Entries(low + kept) + FromAbort(high, calls, f)))
    else Done(Queue(low + kept, InRange(below, |low + kept|)), dropped + gone)
  }

  lemma {:induction false} PassOn<K, V>(
    q: Queue<K, V>, i: nat, calls: nat, f: Closure<K, V>, dropped: seq<Entry<K, V>>)
    requires Valid(q) && i <= |q.items|
    ensures PassesFrom(q, i, calls, f, dropped)
    decreases |q.items| - i
  {
    hide RetainFrom;
    if i == |q.items| {
      RetainEnd(q, i, calls, f, dropped);
      assert q.items[..i] + [] == q.items;
    } else {
      RetainStep(q, i, calls, f, dropped);
      var item := q.items[i];
      match f(calls, item.key, item.value)
      case Keep(v) => KeepPasses(q, i, calls, f, dropped, v);
      case Discard(v) => DiscardPasses(q, i, calls, f, dropped, v);
      case Abort(v) => AbortPasses(q, i, calls, f, dropped, v);
    }
  }

  lemma KeepPasses<K, V>(
    q: Queue<K, V>, i: nat, calls: nat, f: Closure<K, V>, dropped: seq<Entry<K, V>>, v: V)
    requires Valid(q) && i < |q.items| && f(calls, q.items[i].key, q.items[i].value) == Keep(v)
    ensures PassesFrom(q, i, calls, f, dropped)
    decreases |q.items| - i, 0
  {
    hide RetainFrom, Entries;
    var item' := q.items[i].(value := v);
    var q' := q.(items := q.items[i := item']);
    RetainStep(q, i, calls, f, dropped);
    NewValue(q, i, v, q.items[i].key);
    PassOn(q', i + 1, calls + 1, f, dropped);
    var high := q.items[i..];
    assert high[1..] == q'.items[i + 1..] && high[0] == q.items[i];
    assert q'.items[..i + 1] == q.items[..i] + [item'];
    var rest := KeptItems(high[1..], calls + 1, f);
    assert q.items[..i] + ([item'] + rest) == q.items[..i] + [item'] + rest;
    if q.hand > i {
      var mid := q.items[i..q.hand];
      assert mid[1..] == q'.items[i + 1..q.hand] && mid[0] == q.items[i];
    }
  }

  lemma DiscardPasses<K, V>(
    q: Queue<K, V>, i: nat, calls: nat, f: Closure<K, V>, dropped: seq<Entry<K, V>>, v: V)
    requires Valid(q) && i < |q.items| && f(calls, q.items[i].key, q.items[i].value) == Discard(v)
    ensures PassesFrom(q, i, calls, f, dropped)
    decreases |q.items| - i, 0
  {
    hide RetainFrom, Entries, Valid;
    var e := Entry(q.items[i].key, v);
    var q' := Gone(q, i, calls, f, dropped, v);
    PassOn(q', i, calls + 1, f, dropped + [e]);
    var high := q.items[i..];
    assert high[1..] == q'.items[i..] && high[0] == q.items[i];
    var gone := Drops(high[1..], calls + 1, f);
    assert dropped + ([e] + gone) == dropped + [e] + gone;
    if q.hand > i {
      var mid := q.items[i..q.hand];
      assert mid[1..] == q'.items[i..q.hand - 1] && mid[0] == q.items[i];
    }
  }

  /** The queue without the discarded entry, its hand, and how the pass goes on. */
  lemma Gone<K, V>(
    q: Queue<K, V>, i: nat, calls: nat, f: Closure<K, V>, dropped: seq<Entry<K, V>>, v: V) returns (q': Queue<K, V>)
    requires Valid(q) && i < |q.items| && f(calls, q.items[i].key, q.items[i].value) == Discard(v)
    ensures Valid(q') && |q'.items| == |q.items| - 1 && q.hand <= |q.items|
    ensures q'.items[..i] == q.items[..i] && q'.items[i..] == q.items[i + 1..]
    ensures q.hand > i ==> q'.hand == q.hand - 1 && q'.items[i..q.hand - 1] == q.items[i + 1..q.hand]
    ensures q.hand <= i ==> q'.hand <= i && (q'.hand == q.hand || (q'.hand == 0 && q.hand == i == |q'.items|))
    ensures RetainFrom(q, i, calls, f, dropped) ==
            RetainFrom(q', i, calls + 1, f, dropped + [Entry(q.items[i].key, v)])
  {
    hide RetainFrom;
    q' := DeleteAt(q, i);
    RetainStep(q, i, calls, f, dropped);
    CutAt(q.items, i, v);
    DeleteKeepsValid(q, i);
  }

  lemma AbortPasses<K, V>(
    q: Queue<K, V>, i: nat, calls: nat, f: Closure<K, V>, dropped: seq<Entry<K, V>>, v: V)
    requires Valid(q) && i < |q.items| && f(calls, q.items[i].key, q.items[i].value) == Abort(v)
    ensures PassesFrom(q, i, calls, f, dropped)
  {
    hide RetainFrom;
    RetainStep(q, i, calls, f, dropped);
    var high := q.items[i..];
    var items' := q.items[i := q.items[i].(value := v)];
    assert Entries(items') == Entries(q.items[..i] + []) + ([Entry(q.items[i].key, v)] + Entries(high[1..]));
    assert dropped + [] == dropped;
  }

  /** Deleting one entry at a time is the single pass: queue, order, flags, hand and dropped entries. */
  lemma RetainIsOnePass<K, V>(q: Queue<K, V>, f: Closure<K, V>)
    requires Valid(q)
    ensures Retain(q, f) == Passed(q, 0, f)
  {
    hide RetainFrom;
    PassOn(q, 0, 0, f, []);
    assert q.items[..0] == [] && q.items[0..] == q.items && q.items[0..q.hand] == q.items[..q.hand];
    var kept, gone, rest := KeptItems(q.items, 0, f), Drops(q.items, 0, f), FromAbort(q.items, 0, f);
    assert [] + kept == kept && [] + gone == gone;
    assert gone + (Entries(kept) + rest) == gone + Entries(kept) + rest;
  }
}

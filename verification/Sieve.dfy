/**
 The SIEVE policy on a plain queue: entries from oldest to newest, each with a
 visited flag, and a hand. This is what every implementation in this project is
 proved to compute; nothing here knows about tags, ids, bitmaps or holes.
 */
module Sieve {

  datatype Option<+T> = None | Some(value: T)

  datatype Entry<+K, +V> = Entry(key: K, value: V)

  datatype Item<+K, +V> = Item(key: K, value: V, visited: bool)

  datatype Queue<+K, +V> = Queue(items: seq<Item<K, V>>, hand: nat)

  ghost predicate UniqueKeys<K, V>(items: seq<Item<K, V>>) {
    forall i, j | 0 <= i < j < |items| :: items[i].key != items[j].key
  }

  /** Between operations keys are unique and the hand is on an entry, or at 0. */
  ghost predicate Valid<K, V>(q: Queue<K, V>) {
    && UniqueKeys(q.items)
    && (q.hand == 0 || q.hand < |q.items|)
  }

  /** Position of `key`, or the length when it is absent. */
  function IndexOf<K(==), V>(items: seq<Item<K, V>>, key: K): (r: nat)
    ensures r <= |items|
    ensures r < |items| ==> items[r].key == key
    ensures forall j | 0 <= j < r :: items[j].key != key
  {
    if items == [] then 0
    else if items[0].key == key then 0
    else 1 + IndexOf(items[1..], key)
  }

  predicate Has<K(==), V>(q: Queue<K, V>, key: K) {
    IndexOf(q.items, key) < |q.items|
  }

  /** A hand past the end starts over. */
  function InRange(hand: nat, len: nat): nat { if hand >= len then 0 else hand }

  // ---- the sweep ----

  function Flags<K, V>(items: seq<Item<K, V>>): (f: seq<bool>)
    ensures |f| == |items| && forall i | 0 <= i < |f| :: f[i] == items[i].visited
  {
    seq(|items|, i requires 0 <= i < |items| => items[i].visited)
  }

  function WithFlags<K, V>(items: seq<Item<K, V>>, flags: seq<bool>): (r: seq<Item<K, V>>)
    requires |flags| == |items|
    ensures |r| == |items|
    ensures forall i | 0 <= i < |r| :: r[i] == items[i].(visited := flags[i])
  {
    seq(|items|, i requires 0 <= i < |items| => items[i].(visited := flags[i]))
  }

  /** Number of set flags: what bounds the sweep. */
  function Count(flags: seq<bool>): nat {
    if flags == [] then 0 else (if flags[0] then 1 else 0) + Count(flags[1..])
  }

  lemma {:induction false} CountClears(flags: seq<bool>, i: nat)
    requires i < |flags| && flags[i]
    ensures Count(flags[i := false]) == Count(flags) - 1
  {
    if i > 0 {
      assert flags[i := false][1..] == flags[1..][i - 1 := false];
      CountClears(flags[1..], i - 1);
    } else {
      assert flags[0 := false][1..] == flags[1..];
    }
  }

  /**
   The sweep itself, one step at a time: a visited entry under the hand loses its
   flag and the hand moves on cyclically; the first unvisited entry is the victim.
   */
  function Sweep(flags: seq<bool>, hand: nat): (r: (nat, seq<bool>))
    requires hand < |flags|
    ensures r.0 < |flags| == |r.1|
    decreases Count(flags)
  {
    if !flags[hand] then (hand, flags)
    else
      CountClears(flags, hand);
      Sweep(flags[hand := false], if hand + 1 < |flags| then hand + 1 else 0)
  }

  /** The first unset flag in `[lo, hi)`, or `hi`. */
  function FirstUnset(flags: seq<bool>, lo: nat, hi: nat): (r: nat)
    requires lo <= hi <= |flags|
    ensures lo <= r <= hi
    ensures forall i | lo <= i < r :: flags[i]
    ensures r < hi ==> !flags[r]
    decreases hi - lo
  {
    if lo == hi || !flags[lo] then lo else FirstUnset(flags, lo + 1, hi)
  }

  function Clear(flags: seq<bool>, lo: nat, hi: nat): (r: seq<bool>)
    ensures |r| == |flags|
    ensures forall i | 0 <= i < |r| :: r[i] == (flags[i] && !(lo <= i < hi))
  {
    seq(|flags|, i requires 0 <= i < |flags| => flags[i] && !(lo <= i < hi))
  }

  /** The two-pass form of the sweep: to the end, then up to the hand, else the hand. */
  function TwoPass(flags: seq<bool>, hand: nat): (r: (nat, seq<bool>))
    requires hand < |flags|
    ensures r.0 < |flags| == |r.1|
  {
    var n := |flags|;
    var v := FirstUnset(flags, hand, n);
    if v < n then (v, Clear(flags, hand, v))
    else
      var w := FirstUnset(flags, 0, hand);
      if w < hand then (w, Clear(Clear(flags, hand, n), 0, w))
      else (hand, Clear(flags, 0, n))
  }

  /** From the hand to the end of the queue. */
  lemma {:induction false} SweepToEnd(flags: seq<bool>, hand: nat)
    requires hand < |flags|
    ensures var n := |flags|; var v := FirstUnset(flags, hand, n);
      Sweep(flags, hand) == if v < n then (v, Clear(flags, hand, v)) else Sweep(Clear(flags, hand, n), 0)
    decreases |flags| - hand
  {
    var n := |flags|;
    var v := FirstUnset(flags, hand, n);
    if !flags[hand] {
      assert Clear(flags, hand, hand) == flags;
    } else {
      var cleared := flags[hand := false];
      CountClears(flags, hand);
      if hand + 1 < n {
        SweepToEnd(cleared, hand + 1);
        FirstUnsetIs(cleared, hand + 1, n, v);
        assert Clear(cleared, hand + 1, v) == Clear(flags, hand, v);
      } else {
        assert cleared == Clear(flags, hand, n);
      }
    }
  }

  lemma {:induction false} FirstUnsetIs(flags: seq<bool>, lo: nat, hi: nat, r: nat)
    requires lo <= r <= hi <= |flags|
    requires forall i | lo <= i < r :: flags[i]
    requires r < hi ==> !flags[r]
    ensures FirstUnset(flags, lo, hi) == r
    decreases r - lo
  {
    if lo < r { FirstUnsetIs(flags, lo + 1, hi, r); }
  }

  /** The cyclic walk is the two-pass scan, for every length, hand and flag pattern. */
  lemma SweepIsTwoPass(flags: seq<bool>, hand: nat)
    requires hand < |flags|
    ensures Sweep(flags, hand) == TwoPass(flags, hand)
  {
    var n := |flags|;
    SweepToEnd(flags, hand);
    if FirstUnset(flags, hand, n) == n {
      var cleared := Clear(flags, hand, n);
      SweepToEnd(cleared, 0);
      var w := FirstUnset(flags, 0, hand);
      FirstUnsetIs(cleared, 0, n, w);
      assert Clear(cleared, 0, hand) == Clear(flags, 0, n);
    }
  }

  /** A visited entry is the victim only when every entry was visited. */
  lemma VisitedVictimMeansAllVisited(flags: seq<bool>, hand: nat)
    requires hand < |flags|
    ensures flags[Sweep(flags, hand).0] <==> (forall i | 0 <= i < |flags| :: flags[i])
    ensures !Sweep(flags, hand).1[Sweep(flags, hand).0]
    ensures forall i | 0 <= i < |flags| && !flags[i] :: !Sweep(flags, hand).1[i]
  {
    SweepIsTwoPass(flags, hand);
  }

  // ---- the operations ----

  /** A hit marks the entry visited; the hand never moves. */
  function Get<K(==), V>(q: Queue<K, V>, key: K): (Option<V>, Queue<K, V>) {
    var i := IndexOf(q.items, key);
    if i == |q.items| then (None, q)
    else (Some(q.items[i].value), q.(items := q.items[i := q.items[i].(visited := true)]))
  }

  function Peek<K(==), V>(q: Queue<K, V>, key: K): Option<V> {
    var i := IndexOf(q.items, key);
    if i == |q.items| then None else Some(q.items[i].value)
  }

  /** A caller writes through a reference to the value; a promoting lookup also marks the entry. */
  function Change<K(==), V>(q: Queue<K, V>, key: K, promote: bool, g: V -> V): (Option<V>, Queue<K, V>) {
    var i := IndexOf(q.items, key);
    if i == |q.items| then (None, q)
    else
      var item := q.items[i];
      (Some(item.value), q.(items := q.items[i := Item(item.key, g(item.value), item.visited || promote)]))
  }

  /** The row without position `i`. */
  function Without<T>(s: seq<T>, i: nat): (r: seq<T>)
    requires i < |s|
    ensures |r| == |s| - 1
    ensures forall j | 0 <= j < |r| :: r[j] == s[if j < i then j else j + 1]
  {
    s[..i] + s[i + 1..]
  }

  /** Deletes position `i`; the hand stays on its entry, or moves to the cyclic successor. */
  function DeleteAt<K, V>(q: Queue<K, V>, i: nat): Queue<K, V>
    requires i < |q.items|
  {
    var n := |q.items| - 1;
    var h := if q.hand > i then q.hand - 1 else q.hand;
    Queue(Without(q.items, i), if h >= n then 0 else h)
  }

  lemma DeleteKeepsValid<K, V>(q: Queue<K, V>, i: nat)
    requires UniqueKeys(q.items) && i < |q.items|
    ensures Valid(DeleteAt(q, i))
    ensures DeleteAt(q, i).items[..i] == q.items[..i] && DeleteAt(q, i).items[i..] == q.items[i + 1..]
    ensures |DeleteAt(q, i).items| == |q.items| - 1
  {
  }

  lemma AppendKeepsValid<K, V>(q: Queue<K, V>, item: Item<K, V>)
    requires Valid(q) && IndexOf(q.items, item.key) == |q.items|
    ensures Valid(q.(items := q.items + [item]))
  {
  }

  /** The queue after a sweep from the hand, with the victim's position. */
  function Swept<K, V>(q: Queue<K, V>): (r: (nat, Queue<K, V>))
    requires q.hand < |q.items|
    ensures r.0 < |q.items| == |r.1.items|
  {
    var (v, flags) := Sweep(Flags(q.items), q.hand);
    (v, Queue(WithFlags(q.items, flags), v))
  }

  /**
   Inserting: an existing key is updated in place and marked visited; otherwise the
   entry joins at the newest end, unvisited, after a full queue has lost its victim.
   */
  function Insert<K(==), V>(q: Queue<K, V>, capacity: nat, key: K, value: V)
    : (Option<(K, V)>, Queue<K, V>)
    requires Valid(q) && 0 < capacity && |q.items| <= capacity
  {
    var i := IndexOf(q.items, key);
    var newest := Item(key, value, false);
    if i < |q.items| then
      (None, q.(items := q.items[i := q.items[i].(value := value, visited := true)]))
    else if |q.items| < capacity then
      (None, q.(items := q.items + [newest]))
    else
      var (v, swept) := Swept(q);
      var rest := DeleteAt(swept, v);
      (Some((q.items[v].key, q.items[v].value)), rest.(items := rest.items + [newest]))
  }

  /** A key that is not in the queue is not in it after an eviction either. */
  lemma MissesStay<K, V>(q: Queue<K, V>, key: K)
    requires q.hand < |q.items| && IndexOf(q.items, key) == |q.items|
    ensures var (v, swept) := Swept(q); var rest := DeleteAt(swept, v).items;
      IndexOf(rest, key) == |rest|
  {
    hide Sweep;
  }

  function Remove<K(==), V>(q: Queue<K, V>, key: K): (Option<V>, Queue<K, V>) {
    var i := IndexOf(q.items, key);
    if i == |q.items| then (None, q)
    else (Some(q.items[i].value), DeleteAt(q, i))
  }

  function Empty<K, V>(): Queue<K, V> { Queue([], 0) }

  /** The entries of a queue, in order. */
  function Entries<K, V>(items: seq<Item<K, V>>): (r: seq<Entry<K, V>>)
    ensures |r| == |items| && forall i | 0 <= i < |r| :: r[i] == Entry(items[i].key, items[i].value)
  {
    seq(|items|, i requires 0 <= i < |items| => Entry(items[i].key, items[i].value))
  }

  // ---- retain ----

  /** What the closure did: it may change the value, and then keeps, discards or aborts. */
  datatype Verdict<+V> = Keep(value: V) | Discard(value: V) | Abort(value: V)

  /** A closure with state: its answer may depend on how often it was called before. */
  type Closure<!K, !V> = (nat, K, V) -> Verdict<V>

  datatype Outcome<+K, +V> = Done(queue: Queue<K, V>, dropped: seq<Entry<K, V>>) | Aborted(dropped: seq<Entry<K, V>>)

  /** Retaining is deleting the discarded entries one at a time, oldest first. */
  function RetainFrom<K, V>(q: Queue<K, V>, i: nat, calls: nat, f: Closure<K, V>, dropped: seq<Entry<K, V>>)
    : Outcome<K, V>
    requires i <= |q.items|
    decreases |q.items| - i
  {
    if i == |q.items| then Done(q, dropped)
    else
      var item := q.items[i];
      match f(calls, item.key, item.value)
      case Keep(v) => RetainFrom(q.(items := q.items[i := item.(value := v)]), i + 1, calls + 1, f, dropped)
      case Discard(v) => RetainFrom(DeleteAt(q, i), i, calls + 1, f, dropped + [Entry(item.key, v)])
      case Abort(v) => Aborted(dropped + Entries(q.items[i := item.(value := v)]))
  }

  function Retain<K, V>(q: Queue<K, V>, f: Closure<K, V>): Outcome<K, V> {
    RetainFrom(q, 0, 0, f, [])
  }

  /** One call: the queue with the value as the closure left it, and how the rest goes on. */
  lemma RetainStep<K, V>(q: Queue<K, V>, i: nat, calls: nat, f: Closure<K, V>, dropped: seq<Entry<K, V>>)
    requires i < |q.items|
    ensures var item := q.items[i]; var verdict := f(calls, item.key, item.value);
      var q' := q.(items := q.items[i := item.(value := verdict.value)]);
      RetainFrom(q, i, calls, f, dropped) ==
      match verdict
      case Keep(_) => RetainFrom(q', i + 1, calls + 1, f, dropped)
      case Discard(v) => RetainFrom(DeleteAt(q', i), i, calls + 1, f, dropped + [Entry(item.key, v)])
      case Abort(_) => Aborted(dropped + Entries(q'.items))
  {
    var item := q.items[i];
    var verdict := f(calls, item.key, item.value);
    var q' := q.(items := q.items[i := item.(value := verdict.value)]);
    assert Without(q'.items, i) == Without(q.items, i);
  }

  lemma RetainEnd<K, V>(q: Queue<K, V>, i: nat, calls: nat, f: Closure<K, V>, dropped: seq<Entry<K, V>>)
    requires i == |q.items|
    ensures RetainFrom(q, i, calls, f, dropped) == Done(q, dropped)
  {
  }
}

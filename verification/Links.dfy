/**
 How a row of live tags, an arena and the queue's entries agree, wherever the tags
 are stored: each tag names the arena slot of its entry, no two tags share a slot, and
 a slot is initialised exactly when a tag names it. The lemmas are the steps every
 implementation takes: update in place, append, unlink, move an entry to another slot.
 */
module Links {
  import opened Tags
  import opened Sieve
  import opened Counting

  /** How tags are laid out and which hash they keep bits of. */
  datatype Scheme<!K> = Scheme(layout: Layout, hasher: K -> bv64)

  type Arena<K, V> = seq<Option<Entry<K, V>>>

  ghost function NeedleOf<K>(c: Scheme<K>, key: K): bv16
    requires ValidLayout(c.layout)
  {
    Needle(c.layout, c.hasher(key))
  }

  /** `tag` names the arena slot that holds `item`, and carries its hash bits. */
  ghost predicate Names<K, V>(c: Scheme<K>, tag: bv16, entries: Arena<K, V>, item: Item<K, V>)
    requires ValidLayout(c.layout)
  {
    && IdOf(c.layout, tag) < |entries|
    && entries[IdOf(c.layout, tag)] == Some(Entry(item.key, item.value))
    && Matches(c.layout, tag, NeedleOf(c, item.key))
  }

  /** The arena ids of a row of tags. */
  ghost function Ids(l: Layout, tags: seq<bv16>): (ids: seq<nat>)
    requires ValidLayout(l)
    ensures |ids| == |tags| && forall i | 0 <= i < |tags| :: ids[i] == IdOf(l, tags[i])
  {
    seq(|tags|, i requires 0 <= i < |tags| => IdOf(l, tags[i]))
  }

  ghost predicate Distinct<T>(s: seq<T>) {
    forall i, j | 0 <= i < j < |s| :: s[i] != s[j]
  }

  /** I6: an arena slot is initialised exactly when a live tag names it. */
  ghost predicate ArenaIs<K, V>(entries: Arena<K, V>, ids: seq<nat>) {
    forall e | 0 <= e < |entries| :: entries[e].Some? <==> e in ids
  }

  /** I5, I6 and I7 for the row `live`, and the entries it holds in order. */
  ghost predicate Linked<K, V>(c: Scheme<K>, live: seq<bv16>, entries: Arena<K, V>, items: seq<Item<K, V>>) {
    && ValidLayout(c.layout)
    && |entries| <= MAX_PER_SHARD
    && |live| == |items|
    && (forall i | 0 <= i < |live| :: Names(c, live[i], entries, items[i]))
    && Distinct(Ids(c.layout, live))
    && ArenaIs(entries, Ids(c.layout, live))
  }

  /** I8: the ids in use are the first `|live|`. */
  ghost predicate Compact(l: Layout, live: seq<bv16>)
    requires ValidLayout(l)
  {
    forall i | 0 <= i < |live| :: IdOf(l, live[i]) < |live|
  }

  /** The ids in use are the first `n` but one. */
  ghost predicate IdsExcept(ids: seq<nat>, n: nat, id: nat) {
    forall e: nat :: e in ids <==> e < n && e != id
  }

  /** I6 and I8 together: the initialised slots are exactly the first `|live|`. */
  lemma ArenaIsPrefix<K, V>(c: Scheme<K>, live: seq<bv16>, entries: Arena<K, V>, items: seq<Item<K, V>>)
    requires Linked(c, live, entries, items) && Compact(c.layout, live)
    ensures forall e: nat :: e in Ids(c.layout, live) <==> e < |live|
    ensures forall e | 0 <= e < |entries| :: entries[e].Some? <==> e < |live|
    ensures |live| <= |entries|
    ensures IdsExcept(Ids(c.layout, live), |live| + 1, |live|)
  {
    hide IdOf, Matches, Needle, Names;
    var ids := Ids(c.layout, live);
    Pigeonhole(ids);
    assert forall e :: e in ids <==> e in Elements(ids);
    RoomForAll(c, live, entries, items);
  }

  lemma GapInIds(ids: seq<nat>, rest: seq<nat>, n: nat, id: nat)
    requires forall e: nat :: e in ids <==> e < n
    requires forall e :: e in rest <==> e in ids && e != id
    ensures IdsExcept(rest, n, id)
  {
  }

  /** A tag with the missing id makes the row compact. */
  lemma FillsGap(l: Layout, live: seq<bv16>, tag: bv16)
    requires ValidLayout(l) && IdsExcept(Ids(l, live), |live| + 1, IdOf(l, tag))
    requires IdOf(l, tag) <= |live|
    ensures Compact(l, live + [tag])
  {
    hide IdOf;
    forall i | 0 <= i < |live| + 1 ensures IdOf(l, (live + [tag])[i]) < |live| + 1 {
      if i < |live| { assert Ids(l, live)[i] in Ids(l, live); }
    }
  }

  lemma IdPosition(ids: seq<nat>, n: nat, free: nat, e: nat) returns (k: nat)
    requires IdsExcept(ids, n, free) && e < n && e != free
    ensures k < |ids| && ids[k] == e
  {
    assert e in ids;
    k :| k < |ids| && ids[k] == e;
  }

  /** Distinct ids within the arena: never more tags than slots. */
  lemma RoomForAll<K, V>(c: Scheme<K>, live: seq<bv16>, entries: Arena<K, V>, items: seq<Item<K, V>>)
    requires Linked(c, live, entries, items)
    ensures |live| <= |entries|
  {
    hide IdOf, Matches, Needle;
    var ids := Ids(c.layout, live);
    forall e | e in Elements(ids) ensures e < |entries| {
      var i :| 0 <= i < |ids| && ids[i] == e;
      assert Names(c, live[i], entries, items[i]);
    }
    DistinctCount(ids);
    Subset(Elements(ids), UpTo(|entries|));
  }

  lemma LinkedIds<K, V>(c: Scheme<K>, live: seq<bv16>, entries: Arena<K, V>, items: seq<Item<K, V>>)
    requires Linked(c, live, entries, items)
    ensures |live| == |items| && Distinct(Ids(c.layout, live)) && ArenaIs(entries, Ids(c.layout, live))
  {
  }

  /** What a live tag gives its reader: an initialised slot with the right entry. */
  lemma Named<K, V>(c: Scheme<K>, live: seq<bv16>, entries: Arena<K, V>, items: seq<Item<K, V>>, i: nat)
    requires Linked(c, live, entries, items) && i < |live|
    ensures IdOf(c.layout, live[i]) < |entries|
    ensures entries[IdOf(c.layout, live[i])] == Some(Entry(items[i].key, items[i].value))
    ensures Matches(c.layout, live[i], NeedleOf(c, items[i].key))
    ensures Live(live[i]) && live[i] != EMPTY
  {
    hide IdOf, Matches, Needle, Live;
    assert Names(c, live[i], entries, items[i]);
    NeedleShape(c.layout, c.hasher(items[i].key));
    MatchIsLive(c.layout, live[i], NeedleOf(c, items[i].key));
  }

  /** The entry at `i` gets a new value in place, and any flag. */
  lemma SetValue<K, V>(
    c: Scheme<K>, live: seq<bv16>, entries: Arena<K, V>, items: seq<Item<K, V>>, i: nat, value: V, visited: bool)
    requires Linked(c, live, entries, items) && i < |live|
    ensures IdOf(c.layout, live[i]) < |entries|
    ensures Linked(c, live, entries[IdOf(c.layout, live[i]) := Some(Entry(items[i].key, value))],
                   items[i := items[i].(value := value, visited := visited)])
  {
    hide IdOf, Matches, Needle;
    assert Names(c, live[i], entries, items[i]);
    var ids := Ids(c.layout, live);
    var entries' := entries[ids[i] := Some(Entry(items[i].key, value))];
    var items' := items[i := items[i].(value := value, visited := visited)];
    assert ids[i] in ids;
    forall j | 0 <= j < |live| ensures Names(c, live[j], entries', items'[j]) {
      assert Names(c, live[j], entries, items[j]);
      assert j != i ==> ids[j] != ids[i];
    }
  }

  /** Flags are not part of the links. */
  lemma Reflag<K, V>(
    c: Scheme<K>, live: seq<bv16>, entries: Arena<K, V>, items: seq<Item<K, V>>, items': seq<Item<K, V>>)
    requires Linked(c, live, entries, items) && |items'| == |items|
    requires forall i | 0 <= i < |items| :: items'[i].key == items[i].key && items'[i].value == items[i].value
    ensures Linked(c, live, entries, items')
  {
    hide IdOf, Matches, Needle;
    forall j | 0 <= j < |live| ensures Names(c, live[j], entries, items'[j]) {
      assert Names(c, live[j], entries, items[j]);
    }
  }

  /** A tag is replaced by one with the same id and hash bits. */
  lemma Retag<K, V>(
    c: Scheme<K>, live: seq<bv16>, entries: Arena<K, V>, items: seq<Item<K, V>>, i: nat, tag: bv16)
    requires Linked(c, live, entries, items) && i < |live|
    requires IdOf(c.layout, tag) == IdOf(c.layout, live[i])
    requires Matches(c.layout, tag, NeedleOf(c, items[i].key))
    ensures Linked(c, live[i := tag], entries, items)
  {
    hide IdOf, Matches, Needle;
    assert Ids(c.layout, live[i := tag]) == Ids(c.layout, live);
    forall j | 0 <= j < |live| ensures Names(c, live[i := tag][j], entries, items[j]) {
      assert Names(c, live[j], entries, items[j]);
    }
  }

  /** A new entry in the free slot `id`, its tag at the end of the row. */
  lemma Append<K, V>(
    c: Scheme<K>, live: seq<bv16>, entries: Arena<K, V>, items: seq<Item<K, V>>, id: nat, item: Item<K, V>)
    requires Linked(c, live, entries, items)
    requires id < |entries| && entries[id].None?
    ensures var tag := NewTag(c.layout, id, NeedleOf(c, item.key));
      && Linked(c, live + [tag], entries[id := Some(Entry(item.key, item.value))], items + [item])
      && Ids(c.layout, live + [tag]) == Ids(c.layout, live) + [id]
      && tag != EMPTY
  {
    hide IdOf, Matches, Needle, NewTag;
    NewTagLaws(c.layout, id, c.hasher(item.key));
    var tag := NewTag(c.layout, id, NeedleOf(c, item.key));
    var live', items' := live + [tag], items + [item];
    var entries' := entries[id := Some(Entry(item.key, item.value))];
    var ids := Ids(c.layout, live);
    assert Ids(c.layout, live') == ids + [id];
    forall j | 0 <= j < |live'| ensures Names(c, live'[j], entries', items'[j]) {
      if j < |live| {
        assert Names(c, live[j], entries, items[j]);
        assert ids[j] in ids;
      }
    }
  }

  lemma WithoutElement<T>(s: seq<T>, i: nat, x: T)
    requires i < |s| && Distinct(s)
    ensures x in Without(s, i) <==> x in s && x != s[i]
  {
    if x in s && x != s[i] {
      var k :| 0 <= k < |s| && s[k] == x;
      assert Without(s, i)[if k < i then k else k - 1] == x;
    }
  }

  lemma UnlinkArena<K, V>(entries: Arena<K, V>, ids: seq<nat>, i: nat)
    requires ArenaIs(entries, ids) && Distinct(ids) && i < |ids| && ids[i] < |entries|
    ensures ArenaIs(entries[ids[i] := None], Without(ids, i)) && Distinct(Without(ids, i))
  {
    forall e | 0 <= e < |entries| ensures e in Without(ids, i) <==> e in ids && e != ids[i] {
      WithoutElement(ids, i, e);
    }
  }

  /** The tag at `i` leaves the row and its entry leaves the arena. */
  lemma Unlink<K, V>(c: Scheme<K>, live: seq<bv16>, entries: Arena<K, V>, items: seq<Item<K, V>>, i: nat)
    requires Linked(c, live, entries, items) && i < |live|
    ensures IdOf(c.layout, live[i]) < |entries|
    ensures Linked(c, Without(live, i), entries[IdOf(c.layout, live[i]) := None], Without(items, i))
    ensures Ids(c.layout, Without(live, i)) == Without(Ids(c.layout, live), i)
    ensures forall e ::
      e in Ids(c.layout, Without(live, i)) <==> e in Ids(c.layout, live) && e != IdOf(c.layout, live[i])
  {
    hide IdOf, Matches, Needle;
    assert Names(c, live[i], entries, items[i]);
    var ids := Ids(c.layout, live);
    var live', items' := Without(live, i), Without(items, i);
    var entries' := entries[ids[i] := None];
    assert Ids(c.layout, live') == Without(ids, i);
    forall j | 0 <= j < |live'| ensures Names(c, live'[j], entries', items'[j]) {
      var k := if j < i then j else j + 1;
      assert Names(c, live[k], entries, items[k]);
      assert ids[k] != ids[i];
    }
    UnlinkArena(entries, ids, i);
    forall e ensures e in Without(ids, i) <==> e in ids && e != ids[i] { WithoutElement(ids, i, e); }
  }

  lemma UpdateElement<T>(s: seq<T>, i: nat, y: T, x: T)
    requires i < |s| && Distinct(s)
    ensures x in s[i := y] <==> x == y || (x in s && x != s[i])
  {
    if x == y { assert s[i := y][i] == x; }
    if x in s && x != s[i] {
      var k :| 0 <= k < |s| && s[k] == x;
      assert s[i := y][k] == x;
    }
  }

  lemma MoveArena<K, V>(entries: Arena<K, V>, ids: seq<nat>, i: nat, to: nat)
    requires ArenaIs(entries, ids) && Distinct(ids) && i < |ids| && ids[i] < |entries|
    requires to < |entries| && entries[to].None?
    ensures ArenaIs(entries[to := entries[ids[i]]][ids[i] := None], ids[i := to]) && Distinct(ids[i := to])
  {
    assert ids[i] in ids;
    forall e | 0 <= e < |entries| ensures e in ids[i := to] <==> e == to || (e in ids && e != ids[i]) {
      UpdateElement(ids, i, to, e);
    }
    forall j | 0 <= j < |ids| ensures ids[j] != to { assert ids[j] in ids; }
  }

  lemma MoveNames<K, V>(c: Scheme<K>, live: seq<bv16>, entries: Arena<K, V>, items: seq<Item<K, V>>, i: nat, to: nat)
    requires Linked(c, live, entries, items) && i < |live| && to < |entries| && entries[to].None?
    ensures IdOf(c.layout, live[i]) < |entries|
    ensures var live' := live[i := WithId(c.layout, live[i], to)];
      var entries' := entries[to := entries[IdOf(c.layout, live[i])]][IdOf(c.layout, live[i]) := None];
      && Ids(c.layout, live') == Ids(c.layout, live)[i := to]
      && forall j | 0 <= j < |live| :: Names(c, live'[j], entries', items[j])
  {
    hide IdOf, Matches, Needle, WithId;
    assert Names(c, live[i], entries, items[i]);
    WithIdLaws(c.layout, live[i], to, NeedleOf(c, items[i].key));
    var ids := Ids(c.layout, live);
    forall j | 0 <= j < |live|
      ensures var entries' := entries[to := entries[ids[i]]][ids[i] := None];
        Names(c, live[i := WithId(c.layout, live[i], to)][j], entries', items[j])
    {
      assert Names(c, live[j], entries, items[j]);
      assert ids[j] in ids;
      assert j != i ==> ids[j] != ids[i];
    }
  }

  /** The entry of the tag at `i` moves to the free slot `to`, and the tag follows it. */
  lemma Move<K, V>(c: Scheme<K>, live: seq<bv16>, entries: Arena<K, V>, items: seq<Item<K, V>>, i: nat, to: nat)
    requires Linked(c, live, entries, items) && i < |live| && to < |entries| && entries[to].None?
    ensures IdOf(c.layout, live[i]) < |entries|
    ensures var live' := live[i := WithId(c.layout, live[i], to)];
      && Linked(c, live', entries[to := entries[IdOf(c.layout, live[i])]][IdOf(c.layout, live[i]) := None], items)
      && Ids(c.layout, live') == Ids(c.layout, live)[i := to]
  {
    hide IdOf, Matches, Needle, WithId, Names;
    MoveNames(c, live, entries, items, i, to);
    MoveArena(entries, Ids(c.layout, live), i, to);
  }

  // ---- tags with gaps ----

  /** The tags that are not EMPTY, in order. */
  ghost function NonEmpty(tags: seq<bv16>): seq<bv16> {
    if tags == [] then []
    else if tags[0] != EMPTY then [tags[0]] + NonEmpty(tags[1..])
    else NonEmpty(tags[1..])
  }

  lemma {:induction false} NonEmptyConcat(a: seq<bv16>, b: seq<bv16>)
    ensures NonEmpty(a + b) == NonEmpty(a) + NonEmpty(b)
  {
    if a == [] {
      assert a + b == b;
    } else {
      assert (a + b)[1..] == a[1..] + b;
      NonEmptyConcat(a[1..], b);
    }
  }

  lemma {:induction false} NonEmptyAll(a: seq<bv16>)
    requires forall i | 0 <= i < |a| :: a[i] != EMPTY
    ensures NonEmpty(a) == a
  {
    if a != [] { NonEmptyAll(a[1..]); }
  }

  lemma {:induction false} NonEmptyNone(a: seq<bv16>)
    requires forall i | 0 <= i < |a| :: a[i] == EMPTY
    ensures NonEmpty(a) == []
  {
    if a != [] { NonEmptyNone(a[1..]); }
  }

  /** A row with a gap and padding: the tags that are left are the two stretches. */
  lemma NonEmptyRow(a: seq<bv16>, gap: seq<bv16>, b: seq<bv16>, pad: seq<bv16>)
    requires forall i | 0 <= i < |a + b| :: (a + b)[i] != EMPTY
    requires forall i | 0 <= i < |gap| :: gap[i] == EMPTY
    requires forall i | 0 <= i < |pad| :: pad[i] == EMPTY
    ensures NonEmpty(a + gap + b + pad) == a + b
  {
    hide NonEmpty;
    NonEmptyConcat(a + gap + b, pad);
    NonEmptyConcat(a + gap, b);
    NonEmptyConcat(a, gap);
    NonEmptyConcat(a, b);
    NonEmptyAll(a + b);
    NonEmptyNone(gap);
    NonEmptyNone(pad);
    var x, y := NonEmpty(a), NonEmpty(b);
    assert x + [] + y + [] == x + y;
  }
}

/**
 One shard of the sharded cache: a packed tag array, an arena addressed by the id in
 each tag, a one-word visited bitmap and the hand. Every operation is proved to do to
 `queue` exactly what the SIEVE policy does to its plain queue.
 */
module Shard {
  import opened Bits
  import opened Tags
  import opened Sieve
  import opened Simd
  import opened Bitmap
  import opened Links
  import opened Counting
  import opened Counters
  import opened Remap

  /** The slot sizes of the arena: the stride whose logarithm is the tag's id shift. */
  predicate SlotShift(shift: bv16) { shift == 4 || shift == 5 || shift == 6 }

  class Shard<K(==), V> {
    const scheme: Scheme<K>
    const tags: array<bv16>
    /** `None` is an uninitialised slot. */
    const entries: array<Option<Entry<K, V>>>
    var len: nat
    var visited: bv64
    var hand: nat
    var hits: nat
    var misses: nat
    var insertions: nat
    var evictions: nat

    /** The queue this shard stands for. */
    ghost var queue: Queue<K, V>

    /** The live region of the tag array. */
    ghost function LiveTags(): seq<bv16>
      requires len <= tags.Length
      reads this`len, tags
    {
      tags[..len]
    }

    /** The arena ids of the live entries, oldest first. */
    ghost function IdRow(): (ids: seq<nat>)
      requires Shape()
      reads this`len, tags
      ensures |ids| == len && forall i | 0 <= i < len :: ids[i] == IdOf(scheme.layout, tags[i])
    {
      Ids(scheme.layout, LiveTags())
    }

    ghost predicate Shape()
      reads this`len
    {
      && SlotShift(scheme.layout.shift) && !scheme.layout.versioned
      && tags as object != entries as object
      && 0 < entries.Length <= MAX_PER_SHARD
      && tags.Length == RoundUp(entries.Length)
      && len <= entries.Length
    }

    /**
     Everything but I8: I4' to I7, the bitmap without stray bits, unique keys and the
     hand in range. It holds between the two halves of `Remove` and `Retain`.
     */
    ghost predicate Loose()
      reads this`len, this`visited, this`hand, this`queue, tags, entries
    {
      && Shape()
      && (forall i | len <= i < tags.Length :: tags[i] == EMPTY)
      && Linked(scheme, LiveTags(), entries[..], queue.items)
      && FlagBits(visited, Flags(queue.items))
      && hand == queue.hand
      && Sieve.Valid(queue)
    }

    ghost predicate Valid()
      reads this`len, this`visited, this`hand, this`queue, tags, entries
    {
      Loose() && Compact(scheme.layout, LiveTags())
    }

    function Counted(): Stats
      reads this`hits, this`misses, this`insertions, this`evictions
    {
      Counters.Stats(hits, misses, insertions, evictions)
    }

    ghost function Repr(): set<object> { {this, tags, entries} }

    function Capacity(): nat { entries.Length }

    constructor (capacity: nat, shift: bv16, hasher: K -> bv64)
      requires 0 < capacity <= MAX_PER_SHARD && SlotShift(shift)
      ensures Valid() && fresh(Repr()) && Capacity() == capacity
      ensures queue == Empty() && scheme == Scheme(Layout(shift, false), hasher)
      ensures hits == misses == insertions == evictions == 0
      ensures forall e | 0 <= e < entries.Length :: entries[e].None?
    {
      scheme := Scheme(Layout(shift, false), hasher);
      tags := new bv16[RoundUp(capacity)](_ => EMPTY);
      entries := new Option<Entry<K, V>>[capacity](_ => None);
      len, visited, hand := 0, 0, 0;
      hits, misses, insertions, evictions := 0, 0, 0, 0;
      queue := Empty();
      new;
      NoFlags();
    }

    // ---- the arena: reading out needs an entry, writing raw needs a free slot ----

    method TakeEntry(id: nat) returns (e: Entry<K, V>)
      requires id < entries.Length && entries[id].Some?
      modifies entries
      ensures entries[..] == old(entries[..])[id := None] && old(entries[id]) == Some(e)
    {
      e := entries[id].value;
      entries[id] := None;
    }

    method WriteEntry(id: nat, e: Entry<K, V>)
      requires id < entries.Length && entries[id].None?
      modifies entries
      ensures entries[..] == old(entries[..])[id := Some(e)]
    {
      entries[id] := Some(e);
    }

    // ---- find ----

    /** What a scan must return: the position of `key` in the queue, and its tag. */
    ghost function Found(key: K): Option<(nat, bv16)>
      requires Valid()
      reads this`len, this`visited, this`hand, this`queue, tags, entries
    {
      var i := IndexOf(queue.items, key);
      if i < len then Some((i, tags[i])) else None
    }

    lemma Lengths()
      requires Valid()
      ensures ValidLayout(scheme.layout)
      ensures len == |queue.items| <= entries.Length <= MAX_PER_SHARD && 0 < entries.Length
      ensures tags.Length == RoundUp(entries.Length)
      ensures Sieve.Valid(queue) && hand == queue.hand && Loose() && Shape()
      ensures forall i | len <= i < tags.Length :: tags[i] == EMPTY
    {
    }

    lemma LooseShape()
      requires Loose()
      ensures Shape() && len == |queue.items|
    {
    }

    /** A live tag that misses the needle, or whose entry has another key, is not `key`'s. */
    lemma LiveTag(i: nat, key: K)
      requires Loose() && i < len
      ensures IdOf(scheme.layout, tags[i]) < entries.Length
      ensures entries[IdOf(scheme.layout, tags[i])].Some?
      ensures entries[IdOf(scheme.layout, tags[i])].value.key == queue.items[i].key
      ensures entries[IdOf(scheme.layout, tags[i])].value.value == queue.items[i].value
      ensures queue.items[i].key == key ==> Matches(scheme.layout, tags[i], NeedleOf(scheme, key))
      ensures Live(tags[i])
    {
      hide IdOf, Matches, Needle, Live;
      Named(scheme, LiveTags(), entries[..], queue.items, i);
    }

    /** Tags past `len` are EMPTY, so a tag that matches is within `len`. */
    lemma LaneIsLive(i: nat, needle: bv16)
      requires Valid() && i < tags.Length && Live(needle)
      requires Matches(scheme.layout, tags[i], needle)
      ensures i < len
    {
      MatchIsLive(scheme.layout, tags[i], needle);
    }

    method FindScalar(key: K, needle: bv16) returns (r: Option<(nat, bv16)>)
      requires Valid() && needle == NeedleOf(scheme, key)
      ensures r == Found(key)
    {
      hide IdOf, Matches, Needle;
      for i := 0 to len
        invariant forall j | 0 <= j < i :: queue.items[j].key != key
      {
        LiveTag(i, key);
        var t := tags[i];
        if Matches(scheme.layout, t, needle) {
          var id := IdOf(scheme.layout, t);
          if entries[id].value.key == key {
            return Some((i, t));
          }
        }
      }
      return None;
    }

    /** One vector load: compares 16 lanes and tries the matching ones, lowest first. */
    method ScanChunk(i: nat, key: K, needle: bv16) returns (r: Option<(nat, bv16)>)
      requires Valid() && needle == NeedleOf(scheme, key) && Live(needle)
      requires i + LANE <= tags.Length
      requires forall j | 0 <= j < i && j < len :: queue.items[j].key != key
      ensures r.Some? ==> r == Found(key)
      ensures r.None? ==> forall j | 0 <= j < i + LANE && j < len :: queue.items[j].key != key
    {
      hide IdOf, Matches, Needle, Live, Tz, Blsr, MaskFrom, MoveMask, Valid, Loose;
      Lengths();
      var cmp := CompareLanes(i, needle);
      var mask := MoveMask(cmp);
      MoveMaskBits(cmp);
      ghost var c := 0;
      while mask != 0
        invariant c <= LANE && MaskFrom(mask, cmp, c)
        invariant forall j | 0 <= j < i + c && j < len :: queue.items[j].key != key
        decreases LANE - c
      {
        var bit := Tz(mask);
        ghost var k := NextLane(mask, cmp, c);
        assert bit / 2 == k;
        var pos := i + bit / 2;
        LaneIsLive(pos, needle);
        LiveTag(pos, key);
        SkippedLanes(cmp, i, c, k, key, needle);
        var tag := tags[pos];
        if entries[IdOf(scheme.layout, tag)].value.key == key {
          return Some((pos, tag));
        }
        mask := Blsr(mask);
        mask := Blsr(mask);
        c := k + 1;
      }
      NoLaneLeft(mask, cmp, c);
      SkippedLanes(cmp, i, c, LANE, key, needle);
      return None;
    }

    /** `cmpeq_epi16` of 16 masked tags against the needle. */
    function CompareLanes(i: nat, needle: bv16): (cmp: seq<bool>)
      requires ValidLayout(scheme.layout) && i + LANE <= tags.Length
      reads tags
      ensures |cmp| == LANE
      ensures forall k | 0 <= k < LANE :: cmp[k] == Matches(scheme.layout, tags[i + k], needle)
    {
      seq(LANE, k requires 0 <= k < LANE && i + k < tags.Length reads tags =>
        Matches(scheme.layout, tags[i + k], needle))
    }

    method FindAvx2(key: K, needle: bv16) returns (r: Option<(nat, bv16)>)
      requires Valid() && needle == NeedleOf(scheme, key)
      ensures r == Found(key)
    {
      hide IdOf, Matches, Needle, Live;
      NeedleShape(scheme.layout, scheme.hasher(key));
      var limit := RoundUp(len);
      var i := 0;
      while i < limit
        invariant i % LANE == 0 && i <= limit <= tags.Length
        invariant forall j | 0 <= j < i && j < len :: queue.items[j].key != key
      {
        r := ScanChunk(i, key, needle);
        if r.Some? { return; }
        i := i + LANE;
      }
      return None;
    }

    /** Lanes that do not match hold other keys. */
    lemma SkippedLanes(cmp: seq<bool>, i: nat, c: nat, k: nat, key: K, needle: bv16)
      requires Valid() && needle == NeedleOf(scheme, key)
      requires |cmp| == LANE && i + LANE <= tags.Length && k <= LANE
      requires forall j | 0 <= j < LANE :: cmp[j] == Matches(scheme.layout, tags[i + j], needle)
      requires forall j | c <= j < k :: !cmp[j]
      ensures forall j | i + c <= j < i + k && j < len :: queue.items[j].key != key
    {
      hide IdOf, Matches, Needle;
      forall j | i + c <= j < i + k && j < len ensures queue.items[j].key != key {
        LiveTag(j, key);
        assert !cmp[j - i];
      }
    }

    method Find(key: K, needle: bv16, hasAvx2: bool) returns (r: Option<(nat, bv16)>)
      requires Valid() && needle == NeedleOf(scheme, key)
      ensures r == Found(key)
    {
      if hasAvx2 {
        r := FindAvx2(key, needle);
      } else {
        r := FindScalar(key, needle);
      }
    }

    // ---- lookups ----

    /** Sets the visited bit at `pos`. */
    method Touch(pos: nat)
      requires Valid() && pos < len
      modifies this`visited, this`queue
      ensures Valid() && queue == old(queue).(items := old(queue).items[pos := old(queue).items[pos].(visited := true)])
    {
      hide IdOf, Matches, Needle, Or, FlagBits, Linked, Compact;
      Lengths();
      ghost var items' := queue.items[pos := queue.items[pos].(visited := true)];
      SetFlag(visited, Flags(queue.items), pos);
      Reflag(scheme, LiveTags(), entries[..], queue.items, items');
      assert Flags(items') == Flags(queue.items)[pos := true];
      visited := Or(visited, Shl1(pos));
      queue := queue.(items := items');
    }

    /** `find_and_touch`, with the hit's position. */
    method FindAndTouch(key: K, hash: bv64, hasAvx2: bool, promote: bool) returns (r: Option<(nat, bv16)>)
      requires Valid() && hash == scheme.hasher(key)
      modifies this
      ensures Valid() && r == old(Found(key)) == Found(key)
      ensures queue == if promote then Sieve.Get(old(queue), key).1 else old(queue)
      ensures hits == old(hits) + (if promote && r.Some? then 1 else 0)
      ensures misses == old(misses) + (if promote && r.None? then 1 else 0)
      ensures insertions == old(insertions) && evictions == old(evictions) && len == old(len)
    {
      hide IdOf, Matches, Needle, Valid, Loose, Shape, IndexOf;
      Lengths();
      var needle := Needle(scheme.layout, hash);
      r := Find(key, needle, hasAvx2);
      if promote {
        if r.Some? {
          hits := hits + 1;
          MarkKeepsIndex(queue.items, r.value.0, key);
          Touch(r.value.0);
        } else {
          misses := misses + 1;
        }
      }
    }

    method Contains(key: K, hash: bv64, hasAvx2: bool) returns (r: bool)
      requires Valid() && hash == scheme.hasher(key)
      ensures r == Has(queue, key)
    {
      var found := Find(key, Needle(scheme.layout, hash), hasAvx2);
      r := found.Some?;
    }

    method Get(key: K, hash: bv64, hasAvx2: bool) returns (r: Option<V>)
      requires Valid() && hash == scheme.hasher(key)
      modifies this
      ensures Valid() && (r, queue) == Sieve.Get(old(queue), key) && IdRow() == old(IdRow())
      ensures hits + misses == old(hits + misses) + 1 && hits == old(hits) + (if r.Some? then 1 else 0)
      ensures insertions == old(insertions) && evictions == old(evictions)
    {
      hide IdOf, Matches, Needle, FlagBits, Linked, Compact;
      Lengths();
      var found := FindAndTouch(key, hash, hasAvx2, true);
      if found.None? { return None; }
      LiveTag(found.value.0, key);
      r := Some(entries[IdOf(scheme.layout, found.value.1)].value.value);
    }

    method Peek(key: K, hash: bv64, hasAvx2: bool) returns (r: Option<V>)
      requires Valid() && hash == scheme.hasher(key)
      ensures r == Sieve.Peek(queue, key)
    {
      hide IdOf, Matches, Needle, FlagBits, Linked, Compact;
      Lengths();
      var found := Find(key, Needle(scheme.layout, hash), hasAvx2);
      if found.None? { return None; }
      LiveTag(found.value.0, key);
      r := Some(entries[IdOf(scheme.layout, found.value.1)].value.value);
    }

    /** `get_mut` and `peek_mut`, with what the caller then does to the value. */
    method Change(key: K, hash: bv64, hasAvx2: bool, promote: bool, g: V -> V) returns (r: Option<V>)
      requires Valid() && hash == scheme.hasher(key)
      modifies this, entries
      ensures Valid() && (r, queue) == Sieve.Change(old(queue), key, promote, g) && IdRow() == old(IdRow())
      ensures hits == old(hits) + (if promote && r.Some? then 1 else 0)
      ensures misses == old(misses) + (if promote && r.None? then 1 else 0)
      ensures insertions == old(insertions) && evictions == old(evictions)
    {
      hide IdOf, Matches, Needle, Valid, Loose, Shape, Ids;
      Lengths();
      var found := FindAndTouch(key, hash, hasAvx2, promote);
      if found.None? { return None; }
      Lengths();
      var (pos, tag) := found.value;
      LiveTag(pos, key);
      r := Some(entries[IdOf(scheme.layout, tag)].value.value);
      WriteValue(pos, tag, g(r.value));
      ghost var was := old(queue).items[pos];
      assert queue.items == old(queue).items[pos := Item(was.key, g(was.value), was.visited || promote)];
    }

    /** A value changes in its slot; the visited bit does not. */
    method WriteValue(pos: nat, tag: bv16, value: V)
      requires Valid() && pos < len && tag == tags[pos]
      modifies this`queue, entries
      ensures Valid()
      ensures queue == old(queue).(items := old(queue).items[pos := old(queue).items[pos].(value := value)])
    {
      hide IdOf, Matches, Needle, FlagBits, Linked, Compact;
      Lengths();
      LiveTag(pos, queue.items[pos].key);
      SetValue(scheme, LiveTags(), entries[..], queue.items, pos, value, queue.items[pos].visited);
      ghost var items' := queue.items[pos := queue.items[pos].(value := value)];
      assert Flags(items') == Flags(queue.items);
      var id := IdOf(scheme.layout, tag);
      ghost var entries' := entries[..][id := Some(Entry(queue.items[pos].key, value))];
      entries[id] := Some(Entry(entries[id].value.key, value));
      assert entries[..] == entries';
      queue := queue.(items := items');
    }

    // ---- the sweep, as bit tricks ----

    /**
     The victim's position, with the flags the sweep passes over cleared: the policy's
     walk, read off the bitmap.
     */
    method FindEvictPos() returns (victim: nat)
      requires Valid() && len == entries.Length
      modifies this`visited, this`hand, this`queue
      ensures Valid()
      ensures var (v, flags) := Sweep(Flags(old(queue).items), old(queue).hand);
        victim == v && queue == old(queue).(items := WithFlags(old(queue).items, flags))
    {
      hide IdOf, Matches, Needle, FlagBits, Linked, Compact, Sweep;
      Lengths();
      hand := InRange(hand, len);
      ghost var flags := Flags(queue.items);
      victim, visited := SearchVictim(visited, len, hand, flags);
      SetFlags(Sweep(flags, hand).1);
    }

    /** The queue takes over the flags that the bitmap already shows. */
    ghost method SetFlags(flags: seq<bool>)
      requires Shape() && |flags| == |queue.items| && FlagBits(visited, flags)
      requires forall i | len <= i < tags.Length :: tags[i] == EMPTY
      requires Linked(scheme, LiveTags(), entries[..], queue.items) && Compact(scheme.layout, LiveTags())
      requires hand == queue.hand && Sieve.Valid(queue)
      modifies this`queue
      ensures Valid() && queue == old(queue).(items := WithFlags(old(queue).items, flags))
    {
      hide IdOf, Matches, Needle, FlagBits, Linked, Compact;
      var items' := WithFlags(queue.items, flags);
      Reflag(scheme, LiveTags(), entries[..], queue.items, items');
      assert Flags(items') == flags;
      queue := queue.(items := items');
    }

    // ---- insert ----

    /**
     A new key. Warm-up extends the live region; a full shard evicts, shifts the tail
     down and reuses the freed id at the newest end.
     */
    method Insert(key: K, value: V, hash: bv64, hasAvx2: bool) returns (evicted: Option<(K, V)>)
      requires Valid() && hash == scheme.hasher(key)
      modifies this, tags, entries
      ensures Valid() && (evicted, queue) == Sieve.Insert(old(queue), Capacity(), key, value)
      ensures insertions == old(insertions) + 1
      ensures evictions == old(evictions) + (if evicted.Some? then 1 else 0)
      ensures hits == old(hits) && misses == old(misses)
      ensures |old(queue).items| <= Capacity() && IdRow() == NextIds(old(queue), Capacity(), key, old(IdRow()))
    {
      hide IdOf, Matches, Needle, Valid, Loose, Pending, Sweep, DeleteAt, Ids, IdRow;
      Lengths();
      insertions := insertions + 1;
      var needle := Needle(scheme.layout, hash);
      var found := Find(key, needle, hasAvx2);
      if found.Some? {
        UpdateInPlace(found.value.0, found.value.1, value);
        return None;
      }
      if len < entries.Length {
        InsertWarm(needle, key, value);
        evicted := None;
      } else {
        evictions := evictions + 1;
        var e := InsertFull(needle, key, value);
        evicted := Some((e.key, e.value));
      }
    }

    /** Warm-up: the next id, at the newest end. */
    method InsertWarm(needle: bv16, key: K, value: V)
      requires Valid() && needle == NeedleOf(scheme, key) && !Has(queue, key) && len < entries.Length
      modifies this`len, this`queue, tags, entries
      ensures Valid() && queue == old(queue).(items := old(queue).items + [Item(key, value, false)])
      ensures IdRow() == old(IdRow()) + [old(len)]
    {
      hide IdOf, Matches, Needle, Valid, Pending;
      Lengths();
      var id := ClaimNext();
      Install(id, needle, key, value);
    }

    /** A full shard: the victim leaves, and its id goes to the newest end. */
    method InsertFull(needle: bv16, key: K, value: V) returns (e: Entry<K, V>)
      requires Valid() && needle == NeedleOf(scheme, key) && !Has(queue, key) && len == entries.Length
      modifies this`len, this`visited, this`hand, this`queue, tags, entries
      ensures Valid()
      ensures var (v, swept) := Swept(old(queue));
        && v < |old(IdRow())| && v < |old(queue).items|
        && e == Entry(old(queue).items[v].key, old(queue).items[v].value)
        && queue == DeleteAt(swept, v).(items := DeleteAt(swept, v).items + [Item(key, value, false)])
        && IdRow() == Without(old(IdRow()), v) + [old(IdRow())[v]]
    {
      hide IdOf, Matches, Needle, Valid, Pending, Sweep, DeleteAt, Ids;
      Lengths();
      MissesStay(queue, key);
      var id;
      id, e := EvictOne();
      Install(id, needle, key, value);
    }

    /**
     Between choosing the slot and writing it: the last position of the live region is
     not linked yet, the slot `id` is free, and everything else is as in a valid shard.
     */
    ghost predicate Pending(id: nat)
      reads this`len, this`visited, this`hand, this`queue, tags, entries
    {
      && Shape()
      && id < len
      && (forall i | len <= i < tags.Length :: tags[i] == EMPTY)
      && Linked(scheme, tags[..len - 1], entries[..], queue.items)
      && IdsExcept(Ids(scheme.layout, tags[..len - 1]), len, id)
      && entries[id].None?
      && FlagBits(visited, Flags(queue.items))
      && hand == queue.hand
      && Sieve.Valid(queue)
    }

    /** Writes the new tag at the newest end and the entry into its free slot. */
    method Install(id: nat, needle: bv16, key: K, value: V)
      requires Pending(id) && needle == NeedleOf(scheme, key)
      requires IndexOf(queue.items, key) == |queue.items|
      modifies this`queue, tags, entries
      ensures Valid() && queue == old(queue).(items := old(queue).items + [Item(key, value, false)])
      ensures len > 0 && IdRow() == old(Ids(scheme.layout, tags[..len - 1])) + [id]
    {
      hide IdOf, Matches, Needle, FlagBits, Linked, NewTag, UniqueKeys;
      ghost var live := tags[..len - 1];
      ghost var item := Item(key, value, false);
      AppendKeepsValid(queue, item);
      Append(scheme, live, entries[..], queue.items, id, item);
      AppendFlag(visited, Flags(queue.items));
      assert Flags(queue.items + [item]) == Flags(queue.items) + [false];
      var tag := NewTag(scheme.layout, id, needle);
      NewTagLaws(scheme.layout, id, scheme.hasher(key));
      FillsGap(scheme.layout, live, tag);
      tags[len - 1] := tag;
      assert LiveTags() == live + [tag];
      WriteEntry(id, Entry(key, value));
      queue := queue.(items := queue.items + [item]);
    }

    /** Warm-up: by I8 the next id is an unused slot. */
    method ClaimNext() returns (id: nat)
      requires Valid() && len < entries.Length
      modifies this`len
      ensures Pending(id) && len == old(len) + 1 && id == old(len)
      ensures tags[..len - 1] == old(LiveTags())
    {
      hide IdOf, Matches, Needle, FlagBits, Linked;
      NextIdIsFree();
      ArenaIsPrefix(scheme, LiveTags(), entries[..], queue.items);
      id := len;
      len := len + 1;
      assert tags[..len - 1] == old(LiveTags());
    }

    /** Takes out the sweep's victim: its slot is free and the tail has shifted down. */
    method EvictOne() returns (id: nat, e: Entry<K, V>)
      requires Valid() && len == entries.Length
      modifies this`visited, this`hand, this`queue, tags, entries
      ensures Pending(id)
      ensures var (v, swept) := Swept(old(queue));
        && queue == DeleteAt(swept, v) && e == Entry(old(queue).items[v].key, old(queue).items[v].value)
        && v < len == |old(IdRow())| && id == old(IdRow())[v]
        && Ids(scheme.layout, tags[..len - 1]) == Without(old(IdRow()), v)
    {
      hide IdOf, Matches, Needle, FlagBits, Linked, Compact, Sweep;
      Lengths();
      var pos := FindEvictPos();
      Lengths();
      id, e := ShiftOut(pos);
    }

    /** Reads the entry out, shifts the tags and the bitmap down, and leaves the hand on the successor. */
    method ShiftOut(pos: nat) returns (id: nat, e: Entry<K, V>)
      requires Valid() && len == entries.Length && pos < len
      modifies this`visited, this`hand, this`queue, tags, entries
      ensures Pending(id)
      ensures queue == DeleteAt(old(queue).(hand := pos), pos)
      ensures e == Entry(old(queue).items[pos].key, old(queue).items[pos].value)
      ensures id == old(IdRow())[pos] && Ids(scheme.layout, tags[..len - 1]) == Without(old(IdRow()), pos)
    {
      hide IdOf, Matches, Needle, FlagBits, Linked, UniqueKeys, IdsExcept;
      Lengths();
      DeleteKeepsValid(queue.(hand := pos), pos);
      id, e := Detach(pos);
      var last := len - 1;
      hand := if pos < last then pos else 0;
      queue := DeleteAt(queue.(hand := pos), pos);
    }

    /**
     The shared part of eviction and removal: the entry at `pos` is read out and the tags
     and bits above it move down; `tags[len - 1]` is left as it was.
     */
    method Detach(pos: nat) returns (id: nat, e: Entry<K, V>)
      requires Valid() && pos < len
      modifies this`visited, tags, entries
      ensures id < len && e == Entry(queue.items[pos].key, queue.items[pos].value)
      ensures id < entries.Length && entries[id].None?
      ensures forall i | len <= i < tags.Length :: tags[i] == EMPTY
      ensures Linked(scheme, tags[..len - 1], entries[..], Without(queue.items, pos))
      ensures FlagBits(visited, Flags(Without(queue.items, pos)))
      ensures IdsExcept(Ids(scheme.layout, tags[..len - 1]), len, id)
      ensures id == old(IdRow())[pos] && Ids(scheme.layout, tags[..len - 1]) == Without(old(IdRow()), pos)
    {
      hide IdOf, Matches, Needle, FlagBits, Linked;
      Lengths();
      ghost var live, items := LiveTags(), queue.items;
      LiveTag(pos, items[pos].key);
      ArenaIsPrefix(scheme, live, entries[..], items);
      Unlink(scheme, live, entries[..], items, pos);
      ShiftFlags(visited, Flags(items), pos);
      assert Flags(Without(items, pos)) == Without(Flags(items), pos);
      id := IdOf(scheme.layout, tags[pos]);
      e := TakeEntry(id);
      ShiftTags(pos);
      visited := ShiftDown(visited, pos);
    }

    /** `tags.copy_within(pos + 1..len, pos)`. */
    method ShiftTags(pos: nat)
      requires pos < len <= tags.Length
      modifies tags
      ensures tags[..len - 1] == Without(old(LiveTags()), pos)
      ensures tags[len - 1] == old(tags[len - 1])
      ensures forall i | len <= i < tags.Length :: tags[i] == old(tags[i])
      ensures forall i | 0 <= i < len - 1 :: tags[i] == old(tags[if i < pos then i else i + 1])
    {
      forall i | pos <= i < len - 1 { tags[i] := tags[i + 1]; }
    }

    method UpdateInPlace(pos: nat, tag: bv16, value: V)
      requires Valid() && pos < len && tag == tags[pos]
      modifies this`visited, this`queue, entries
      ensures Valid()
      ensures queue == old(queue).(items :=
                         old(queue).items[pos := old(queue).items[pos].(value := value, visited := true)])
    {
      hide IdOf, Matches, Needle, FlagBits, Linked, Compact;
      Lengths();
      LiveTag(pos, queue.items[pos].key);
      SetValue(scheme, LiveTags(), entries[..], queue.items, pos, value, true);
      SetFlag(visited, Flags(queue.items), pos);
      ghost var items' := queue.items[pos := queue.items[pos].(value := value, visited := true)];
      assert Flags(items') == Flags(queue.items)[pos := true];
      var id := IdOf(scheme.layout, tag);
      ghost var entries' := entries[..][id := Some(Entry(queue.items[pos].key, value))];
      entries[id] := Some(Entry(entries[id].value.key, value));
      assert entries[..] == entries';
      visited := Or(visited, Shl1(pos));
      queue := queue.(items := items');
    }

    /** I8: during warm-up the next id is an unused slot. */
    lemma NextIdIsFree()
      requires Valid() && len < entries.Length
      ensures entries[len].None?
    {
      hide IdOf, Matches, Needle, FlagBits, Linked, Compact;
      Lengths();
      ArenaIsPrefix(scheme, LiveTags(), entries[..], queue.items);
      assert entries[..][len].None?;
    }

    // ---- remove ----

    /** Deletes `key`: unlinks its tag, then gives the freed id to the owner of the largest one. */
    method Remove(key: K, hash: bv64, hasAvx2: bool) returns (r: Option<V>)
      requires Valid() && hash == scheme.hasher(key)
      modifies this, tags, entries
      ensures Valid() && (r, queue) == Sieve.Remove(old(queue), key)
      ensures |old(queue).items| == |old(IdRow())| && IdRow() == IdsWithout(old(queue).items, key, old(IdRow()))
      ensures hits == old(hits) && misses == old(misses)
      ensures insertions == old(insertions) && evictions == old(evictions)
    {
      hide IdOf, Matches, Needle, Loose, Compact, Linked, FlagBits, DeleteAt;
      Lengths();
      var found := Find(key, Needle(scheme.layout, hash), hasAvx2);
      if found.None? { return None; }
      var (pos, tag) := found.value;
      var removedId, e := UnlinkAt(pos);
      RestoreIds(removedId);
      r := Some(e.value);
    }

    /** The live ids are the first `len + 1` except `id`. */
    ghost predicate OneIdFree(id: nat)
      requires Shape()
      reads this`len, tags
    {
      IdsExcept(Ids(scheme.layout, LiveTags()), len + 1, id)
    }

    /** The tail of the row has moved down: its last position is cleared. */
    method ClearLast(pos: nat)
      requires Shape() && pos < len == |queue.items| && (forall i | len <= i < tags.Length :: tags[i] == EMPTY)
      requires Linked(scheme, tags[..len - 1], entries[..], Without(queue.items, pos))
      requires FlagBits(visited, Flags(Without(queue.items, pos))) && hand == queue.hand
      requires Sieve.Valid(DeleteAt(queue, pos))
      modifies this`len, this`hand, this`queue, tags
      ensures Loose() && queue == DeleteAt(old(queue), pos)
      ensures len == old(len) - 1 && LiveTags() == old(tags[..len - 1])
    {
      hide IdOf, Matches, Needle, FlagBits, Linked, Ids, Sieve.Valid, Without;
      ghost var live := tags[..len - 1];
      var last := len - 1;
      tags[last] := EMPTY;
      len := last;
      assert LiveTags() == live;
      if hand > pos { hand := hand - 1; }
      if hand >= len { hand := 0; }
      queue := DeleteAt(queue, pos);
    }

    method UnlinkAt(pos: nat) returns (removedId: nat, e: Entry<K, V>)
      requires Valid() && pos < len
      modifies this`len, this`visited, this`hand, this`queue, tags, entries
      ensures Loose() && OneIdFree(removedId) && removedId <= len
      ensures removedId < entries.Length && entries[removedId].None?
      ensures pos < |old(IdRow())| && removedId == old(IdRow())[pos] && IdRow() == Without(old(IdRow()), pos)
      ensures queue == DeleteAt(old(queue), pos)
      ensures e == Entry(old(queue).items[pos].key, old(queue).items[pos].value)
    {
      hide IdOf, Matches, Needle, FlagBits, Linked, UniqueKeys, IdsExcept;
      Lengths();
      DeleteKeepsValid(queue, pos);
      removedId, e := Detach(pos);
      ClearLast(pos);
    }

    lemma DistinctLiveIds()
      requires Loose()
      ensures Distinct(Ids(scheme.layout, LiveTags()))
    {
      LinkedIds(scheme, LiveTags(), entries[..], queue.items);
    }

    /** Moves the entry of the tag at `i` to the free slot `to`; the tag follows. */
    method MoveEntry(i: nat, to: nat)
      requires Loose() && i < len && to < entries.Length && entries[to].None?
      modifies tags, entries
      ensures Loose()
      ensures Ids(scheme.layout, LiveTags()) == old(Ids(scheme.layout, LiveTags()))[i := to]
    {
      hide IdOf, Matches, Needle, FlagBits, Linked, WithId;
      LooseShape();
      ghost var live := LiveTags();
      Move(scheme, live, entries[..], queue.items, i, to);
      LiveTag(i, queue.items[i].key);
      var t := tags[i];
      var from := IdOf(scheme.layout, t);
      var v := TakeEntry(from);
      WriteEntry(to, v);
      assert entries[..] == old(entries[..])[to := old(entries[from])][from := None];
      tags[i] := WithId(scheme.layout, t, to);
      assert LiveTags() == live[i := WithId(scheme.layout, t, to)];
    }

    /** Swap to fill the gap: the entry with the largest id moves to the freed one. */
    method RestoreIds(removedId: nat)
      requires Loose() && OneIdFree(removedId) && removedId <= len
      requires removedId < entries.Length && entries[removedId].None?
      modifies tags, entries
      ensures Valid() && IdRow() == Renamed(old(IdRow()), len, removedId)
    {
      hide IdOf, Matches, Needle, FlagBits, Loose, Live, Linked;
      LooseShape();
      var maxId := len;
      ghost var ids := Ids(scheme.layout, LiveTags());
      DistinctLiveIds();
      if removedId < maxId {
        ghost var k := IdPosition(ids, len + 1, removedId, maxId);
        for i := 0 to len
          invariant Loose() && Ids(scheme.layout, LiveTags()) == ids && entries[removedId].None?
          invariant forall j | 0 <= j < i :: IdOf(scheme.layout, tags[j]) != maxId
        {
          var t := tags[i];
          LiveTag(i, queue.items[i].key);
          if Live(t) && IdOf(scheme.layout, t) == maxId {
            MoveEntry(i, removedId);
            forall j | 0 <= j < len ensures IdOf(scheme.layout, tags[j]) < len {
              assert ids[j] in ids;
              assert j != i ==> ids[j] != ids[i];
            }
            return;
          }
        }
        assert false;
      }
      forall j | 0 <= j < len ensures IdOf(scheme.layout, tags[j]) < len {
        assert ids[j] in ids;
      }
    }

    // ---- get or insert ----

    /** On a miss the closure is evaluated and its value inserted; the new entry is the newest. */
    method GetOrInsertWith(key: K, hash: bv64, hasAvx2: bool, f: () -> V) returns (r: V)
      requires Valid() && hash == scheme.hasher(key)
      modifies this, tags, entries
      ensures Valid()
      ensures |old(queue).items| <= Capacity() && IdRow() == NextIds(old(queue), Capacity(), key, old(IdRow()))
      ensures Has(old(queue), key) ==> (Some(r), queue) == Sieve.Get(old(queue), key)
      ensures !Has(old(queue), key) ==> r == f() && queue == Sieve.Insert(old(queue), Capacity(), key, f()).1
      ensures Sieve.Peek(queue, key) == Some(r)
      ensures hits == old(hits) + (if Has(old(queue), key) then 1 else 0)
      ensures misses == old(misses) + (if Has(old(queue), key) then 0 else 1)
      ensures insertions == old(insertions) + (if Has(old(queue), key) then 0 else 1)
      ensures evictions == old(evictions) +
        (if !Has(old(queue), key) && Sieve.Insert(old(queue), Capacity(), key, f()).0.Some? then 1 else 0)
    {
      hide IdOf, Matches, Needle, Compact, Linked, FlagBits, DeleteAt, Sweep;
      Lengths();
      ghost var before := queue;
      var found := FindAndTouch(key, hash, hasAvx2, true);
      Lengths();
      if found.Some? {
        LiveTag(found.value.0, key);
        return entries[IdOf(scheme.layout, found.value.1)].value.value;
      }
      var value := f();
      InsertedIsNewest(queue, Capacity(), key, value);
      var evicted := Insert(key, value, hash, hasAvx2);
      Lengths();
      var pos := len - 1;
      LiveTag(pos, key);
      r := entries[IdOf(scheme.layout, tags[pos])].value.value;
    }

    // ---- retain ----

    /**
     Keeps or drops every entry as `f` says: one pass that compacts the tags, then the ids.
     If `f` aborts, everything that is still initialised is dropped and the shard is empty.
     */
    method Retain(f: Closure<K, V>) returns (aborted: bool, dropped: seq<Entry<K, V>>)
      requires Valid()
      modifies this`len, this`visited, this`hand, this`queue, tags, entries
      ensures Valid()
      ensures Sieve.Retain(old(queue), f) == if aborted then Aborted(dropped) else Done(queue, dropped)
      ensures aborted ==> queue == Empty()
      ensures |old(queue).items| == |old(IdRow())|
      ensures !aborted ==> Remaps(KeptIds(old(queue).items, old(IdRow()), 0, f), IdRow())
    {
      hide Loose, Compact, Remaps, KeptIds;
      aborted, dropped := KeepOrDrop(f);
      if !aborted { RemapIds(); }
    }

    /** How far the pass has come: `write` survivors, a gap of EMPTY tags, then the unread tags. */
    ghost predicate Partway(q: Queue<K, V>, write: nat, read: nat)
      reads this`len, tags, entries
    {
      && Shape()
      && write <= read <= len
      && (forall i | write <= i < read :: tags[i] == EMPTY)
      && (forall i | len <= i < tags.Length :: tags[i] == EMPTY)
      && Linked(scheme, tags[..write] + tags[read..len], entries[..], q.items)
    }

    /** The hand during the pass: the entries dropped below it have pulled it down. */
    ghost predicate HandInPass(h: nat, drops: nat, write: nat, read: nat, n: nat)
      reads this`hand
    {
      && drops <= hand
      && (read <= hand ==> drops == read - write)
      && (hand < read ==> hand - drops <= write)
      && h == InRange(hand - drops, n)
    }

    /**
     The state of the pass. `q` is the queue with the entries read so far kept or
     deleted; the fields of the shard other than tags and arena are still the old ones.
     */
    ghost predicate Pass(q: Queue<K, V>, write: nat, read: nat, newVisited: bv64, drops: nat)
      reads this`len, this`visited, this`hand, this`queue, tags, entries
    {
      && Partway(q, write, read) && Sieve.Valid(q)
      && len == |queue.items| && (hand == 0 || hand < len)
      && FlagBits(visited, Flags(queue.items))
      && |q.items| == write + (len - read)
      && FlagBits(newVisited, Flags(q.items[..write]))
      && Flags(q.items)[write..] == Flags(queue.items)[read..]
      && HandInPass(q.hand, drops, write, read, |q.items|)
    }

    /** The ids that the survivors so far and to come will have, before any is remapped. */
    ghost predicate IdsGoOn(items: seq<Item<K, V>>, write: nat, read: nat, f: Closure<K, V>, kept: seq<nat>)
      reads this`len, tags
    {
      && write <= read <= len <= tags.Length && write <= |items|
      && LeavesIds(scheme.layout, tags[..write], tags[read..len], items[write..], read, f, kept)
    }

    lemma IdsAtStart(f: Closure<K, V>)
      requires Valid()
      ensures |queue.items| == |IdRow()| && IdsGoOn(queue.items, 0, 0, f, KeptIds(queue.items, IdRow(), 0, f))
    {
      hide IdOf, Matches, Needle, Linked, Compact, FlagBits, LeavesIds, KeptIds;
      Lengths();
      FirstTag(scheme.layout, LiveTags(), queue.items, f);
      assert tags[..0] == [] && tags[0..len] == LiveTags() && queue.items[0..] == queue.items;
    }

    lemma IdsNow(items: seq<Item<K, V>>, write: nat, read: nat, f: Closure<K, V>, kept: seq<nat>)
      requires IdsGoOn(items, write, read, f, kept)
      ensures write <= read <= len <= tags.Length && write <= |items|
      ensures LeavesIds(scheme.layout, tags[..write], tags[read..len], items[write..], read, f, kept)
    {
    }

    /** The tag that was first in `back` has moved down to the survivors. */
    lemma KeptTag(front: seq<bv16>, back: seq<bv16>, rest: seq<Item<K, V>>,
                  items: seq<Item<K, V>>, write: nat, read: nat, f: Closure<K, V>, kept: seq<nat>)
      requires LeavesIds(scheme.layout, front, back, rest, read, f, kept) && |rest| > 0 && |back| > 0
      requires f(read, rest[0].key, rest[0].value).Keep?
      requires write < |items| && items[write + 1..] == rest[1..] && write <= read < len <= tags.Length
      requires tags[..write + 1] == front + [back[0]] && tags[read + 1..len] == back[1..]
      ensures IdsGoOn(items, write + 1, read + 1, f, kept)
    {
      hide LeavesIds;
      NextTag(scheme.layout, front, back, rest, read, f, kept);
    }

    /** The tag that was first in `back` is gone. */
    lemma DroppedTag(front: seq<bv16>, back: seq<bv16>, rest: seq<Item<K, V>>,
                     items: seq<Item<K, V>>, write: nat, read: nat, f: Closure<K, V>, kept: seq<nat>)
      requires LeavesIds(scheme.layout, front, back, rest, read, f, kept) && |rest| > 0 && |back| > 0
      requires f(read, rest[0].key, rest[0].value).Discard?
      requires write <= |items| && items[write..] == rest[1..] && write <= read < len <= tags.Length
      requires tags[..write] == front && tags[read + 1..len] == back[1..]
      ensures IdsGoOn(items, write, read + 1, f, kept)
    {
      hide LeavesIds;
      NextTag(scheme.layout, front, back, rest, read, f, kept);
    }

    lemma IdsAtEnd(items: seq<Item<K, V>>, write: nat, f: Closure<K, V>, kept: seq<nat>)
      requires IdsGoOn(items, write, len, f, kept) && write == |items|
      ensures ValidLayout(scheme.layout) && Ids(scheme.layout, tags[..write]) == kept
    {
      hide LeavesIds;
      assert tags[len..len] == [] && items[write..] == [];
      NoTagLeft(scheme.layout, tags[..write], len, f, kept);
    }

    /** The pass is at `read`, and goes on to end in `outcome` with the ids `kept`. */
    ghost predicate OnCourse(q: Queue<K, V>, write: nat, read: nat, newVisited: bv64, drops: nat,
                             f: Closure<K, V>, dropped: seq<Entry<K, V>>, outcome: Outcome<K, V>, kept: seq<nat>)
      reads this`len, this`visited, this`hand, this`queue, tags, entries
    {
      && Pass(q, write, read, newVisited, drops) && write <= |q.items|
      && RetainFrom(q, write, read, f, dropped) == outcome && IdsGoOn(q.items, write, read, f, kept)
    }

    /** One turn of the pass: the closure is called, and the entry kept or dropped. */
    method Turn(ghost q: Queue<K, V>, write: nat, read: nat, newVisited: bv64, drops: nat, f: Closure<K, V>,
                dropped: seq<Entry<K, V>>, ghost outcome: Outcome<K, V>, ghost kept: seq<nat>)
      returns (aborted: bool, ghost q': Queue<K, V>, write': nat, newVisited': bv64, drops': nat,
               dropped': seq<Entry<K, V>>)
      requires OnCourse(q, write, read, newVisited, drops, f, dropped, outcome, kept) && read < len
      modifies tags, entries
      ensures aborted ==>
        Pass(q', write', read, newVisited', drops') && outcome == Aborted(dropped' + Entries(q'.items))
      ensures !aborted ==> OnCourse(q', write', read + 1, newVisited', drops', f, dropped', outcome, kept)
    {
      hide IdOf, Matches, Needle, FlagBits, Linked, Compact, Loose, Pass, DeleteAt, RetainFrom, IdsGoOn, LeavesIds;
      PassPosition(q, write, read, newVisited, drops);
      RetainStep(q, write, read, f, dropped);
      IdsNow(q.items, write, read, f, kept);
      ghost var front, back, rest := tags[..write], tags[read..len], q.items[write..];
      var verdict := CallOn(q, write, read, f, newVisited, drops);
      q' := q.(items := q.items[write := q.items[write].(value := verdict.value)]);
      aborted, write', newVisited', drops', dropped' := false, write, newVisited, drops, dropped;
      match verdict
      case Abort(_) =>
        aborted := true;
      case Keep(_) =>
        newVisited' := KeepOne(q', write, read, newVisited, drops);
        KeptTag(front, back, rest, q'.items, write, read, f, kept);
        write' := write + 1;
      case Discard(_) =>
        var e;
        e, drops' := DropOne(q', write, read, newVisited, drops);
        dropped' := dropped + [e];
        q' := DeleteAt(q', write);
        DroppedTag(front, back, rest, q'.items, write, read, f, kept);
    }

    method KeepOrDrop(f: Closure<K, V>) returns (aborted: bool, dropped: seq<Entry<K, V>>)
      requires Valid()
      modifies this`len, this`visited, this`hand, this`queue, tags, entries
      ensures if aborted then Valid() && queue == Empty() else Loose()
      ensures |old(queue).items| == |old(IdRow())|
      ensures !aborted ==> IdRow() == KeptIds(old(queue).items, old(IdRow()), 0, f)
      ensures Sieve.Retain(old(queue), f) == if aborted then Aborted(dropped) else Done(queue, dropped)
    {
      hide IdOf, Matches, Needle, FlagBits, Linked, Compact, Loose, Pass, RetainFrom, IdsGoOn, KeptIds;
      Lengths();
      var oldLen := len;
      var write, newVisited, dropsBeforeHand := 0, 0 as bv64, 0;
      aborted, dropped := false, [];
      ghost var q, stopped := queue, oldLen;
      ghost var outcome, kept := Sieve.Retain(queue, f), KeptIds(queue.items, IdRow(), 0, f);
      StartPass();
      IdsAtStart(f);
      for read := 0 to oldLen
        modifies tags, entries
        invariant OnCourse(q, write, read, newVisited, dropsBeforeHand, f, dropped, outcome, kept)
      {
        aborted, q, write, newVisited, dropsBeforeHand, dropped :=
          Turn(q, write, read, newVisited, dropsBeforeHand, f, dropped, outcome, kept);
        if aborted {
          stopped := read;
          break;
        }
      }
      if aborted {
        var rest := GuardDrop(q, write, stopped, newVisited, dropsBeforeHand);
        dropped := dropped + rest;
      } else {
        PassPosition(q, write, oldLen, newVisited, dropsBeforeHand);
        RetainEnd(q, write, oldLen, f, dropped);
        IdsAtEnd(q.items, write, f, kept);
        Commit(q, write, newVisited, dropsBeforeHand);
      }
    }

    lemma PassPosition(q: Queue<K, V>, write: nat, read: nat, newVisited: bv64, drops: nat)
      requires Pass(q, write, read, newVisited, drops)
      ensures write <= read <= len && |q.items| == write + (len - read) && Partway(q, write, read)
    {
    }

    lemma StartPass()
      requires Valid()
      ensures Pass(queue, 0, 0, 0, 0)
    {
      hide IdOf, Matches, Needle, Linked, Compact, FlagBits;
      assert tags[..0] + tags[0..len] == LiveTags();
      NoFlags();
      assert Flags(queue.items[..0]) == [];
      Lengths();
    }

    /** One call of the closure, on the entry of the tag at `read`. */
    method CallOn(ghost q: Queue<K, V>, ghost write: nat, read: nat, f: Closure<K, V>,
                  ghost newVisited: bv64, ghost drops: nat) returns (verdict: Verdict<V>)
      requires Pass(q, write, read, newVisited, drops) && read < len
      modifies entries
      ensures verdict == f(read, q.items[write].key, q.items[write].value)
      ensures var items := q.items[write := q.items[write].(value := verdict.value)];
        Pass(q.(items := items), write, read, newVisited, drops)
    {
      hide IdOf, Matches, Needle, Linked, FlagBits, HandInPass;
      ghost var row := tags[..write] + tags[read..len];
      assert row[write] == tags[read];
      Named(scheme, row, entries[..], q.items, write);
      var t := tags[read];
      var id := IdOf(scheme.layout, t);
      var e := entries[id].value;
      verdict := f(read, e.key, e.value);
      SetValue(scheme, row, entries[..], q.items, write, verdict.value, q.items[write].visited);
      entries[id] := Some(Entry(e.key, verdict.value));
      ghost var items' := q.items[write := q.items[write].(value := verdict.value)];
      assert Flags(items') == Flags(q.items) && items'[..write] == q.items[..write];
    }

    /** A survivor keeps its visited bit, and its tag moves down to the end of the survivors. */
    method KeepOne(ghost q: Queue<K, V>, write: nat, read: nat, newVisited: bv64, ghost drops: nat)
      returns (newVisited': bv64)
      requires Pass(q, write, read, newVisited, drops) && read < len
      modifies tags
      ensures Pass(q, write + 1, read + 1, newVisited', drops)
      ensures tags[..write + 1] == old(tags[..write]) + [old(tags[read])]
      ensures tags[read + 1..len] == old(tags[read + 1..len])
    {
      hide IdOf, Matches, Needle, FlagBits, Partway;
      PassPosition(q, write, read, newVisited, drops);
      PartwayBound(q, write, read);
      assert Flags(q.items)[write..][0] == Flags(queue.items)[read..][0];
      newVisited' := KeepFlag(newVisited, q.items, write, visited, queue.items, read);
      KeepTag(q, write, read);
    }

    lemma PartwayBound(q: Queue<K, V>, write: nat, read: nat)
      requires Partway(q, write, read)
      ensures len <= MAX_PER_SHARD
    {
    }

    method KeepTag(ghost q: Queue<K, V>, write: nat, read: nat)
      requires Partway(q, write, read) && read < len
      modifies tags
      ensures Partway(q, write + 1, read + 1)
      ensures tags[..write + 1] == old(tags[..write]) + [old(tags[read])]
      ensures tags[read + 1..len] == old(tags[read + 1..len])
    {
      hide IdOf, Matches, Needle, Linked;
      ghost var row := tags[..write] + tags[read..len];
      var t := tags[read];
      if write != read {
        tags[write] := t;
        tags[read] := EMPTY;
      }
      assert tags[..write + 1] + tags[read + 1..len] == row;
    }

    /** A dropped entry leaves the shard; below the hand it pulls the hand down. */
    method DropOne(ghost q: Queue<K, V>, ghost write: nat, read: nat, ghost newVisited: bv64, drops: nat)
      returns (e: Entry<K, V>, drops': nat)
      requires Pass(q, write, read, newVisited, drops) && read < len
      modifies tags, entries
      ensures Pass(DeleteAt(q, write), write, read + 1, newVisited, drops')
      ensures DeleteAt(q, write).items == Without(q.items, write)
      ensures tags[..write] == old(tags[..write]) && tags[read + 1..len] == old(tags[read + 1..len])
      ensures e == Entry(q.items[write].key, q.items[write].value)
    {
      hide IdOf, Matches, Needle, FlagBits, Partway, UniqueKeys, HandInPass, DeleteAt, Flags;
      PassPosition(q, write, read, newVisited, drops);
      DeleteKeepsValid(q, write);
      DropHand(q, write, read, drops);
      DropFlags(q.items, DeleteAt(q, write).items, queue.items, write, read);
      e := DropAt(q, write, read);
      drops' := if read < hand then drops + 1 else drops;
    }

    lemma DropHand(q: Queue<K, V>, write: nat, read: nat, drops: nat)
      requires HandInPass(q.hand, drops, write, read, |q.items|)
      requires write <= read < len && |q.items| == write + (len - read) && (hand == 0 || hand < len)
      ensures var drops' := if read < hand then drops + 1 else drops;
        HandInPass(DeleteAt(q, write).hand, drops', write, read + 1, |q.items| - 1)
    {
    }

    lemma DropFlags(items: seq<Item<K, V>>, rest: seq<Item<K, V>>, oldItems: seq<Item<K, V>>, write: nat, read: nat)
      requires write < |items| && read < |oldItems| && |rest| == |items| - 1
      requires rest[..write] == items[..write] && rest[write..] == items[write + 1..]
      requires Flags(items)[write..] == Flags(oldItems)[read..]
      ensures Flags(rest)[write..] == Flags(oldItems)[read + 1..]
    {
      assert Flags(rest)[write..] == Flags(rest[write..]) == Flags(items[write + 1..]) == Flags(items)[write..][1..];
      assert Flags(oldItems)[read + 1..] == Flags(oldItems)[read..][1..];
    }

    /** A dropped entry: its tag is zeroed, then the entry is dropped in place. */
    method DropAt(ghost q: Queue<K, V>, ghost write: nat, read: nat) returns (e: Entry<K, V>)
      requires Partway(q, write, read) && read < len && |q.items| == write + (len - read)
      modifies tags, entries
      ensures Partway(DeleteAt(q, write), write, read + 1)
      ensures tags[..write] == old(tags[..write]) && tags[read + 1..len] == old(tags[read + 1..len])
      ensures e == Entry(q.items[write].key, q.items[write].value)
    {
      hide IdOf, Matches, Needle, Linked;
      ghost var row := tags[..write] + tags[read..len];
      assert row[write] == tags[read];
      Named(scheme, row, entries[..], q.items, write);
      Unlink(scheme, row, entries[..], q.items, write);
      var id := IdOf(scheme.layout, tags[read]);
      tags[read] := EMPTY;
      e := TakeEntry(id);
      assert tags[..write] + tags[read + 1..len] == Without(row, write);
    }

    /** The survivor at `write` keeps the visited bit it had at `read`. */
    method KeepFlag(newVisited: bv64, ghost items: seq<Item<K, V>>, write: nat,
                    oldVisited: bv64, ghost oldItems: seq<Item<K, V>>, read: nat) returns (w: bv64)
      requires write < |items| <= 64 && read < |oldItems| <= 64
      requires FlagBits(newVisited, Flags(items[..write])) && FlagBits(oldVisited, Flags(oldItems))
      requires items[write].visited == oldItems[read].visited
      ensures FlagBits(w, Flags(items[..write + 1]))
    {
      hide Bit, Or;
      AppendFlag(newVisited, Flags(items[..write]));
      var b := Bit(oldVisited, read);
      assert b == Flags(oldItems)[read];
      ghost var flags := Flags(items[..write]) + [false];
      assert Flags(items[..write + 1]) == flags[write := items[write].visited];
      if b {
        SetFlag(newVisited, flags, write);
        w := Or(newVisited, Shl1(write));
      } else {
        assert flags[write := false] == flags;
        w := newVisited;
      }
    }

    lemma EndHand(q: Queue<K, V>, write: nat, drops: nat)
      requires HandInPass(q.hand, drops, write, len, write) && (hand == 0 || hand < len)
      ensures q.hand == if hand >= len then 0 else InRange(hand - drops, write)
      ensures drops <= hand
    {
    }

    /** At the end of the pass the survivors' tags, flags and hand are those of a shard of their own. */
    lemma Survivors(q: Queue<K, V>, write: nat, newVisited: bv64, drops: nat)
      requires Pass(q, write, len, newVisited, drops)
      ensures Shape() && write <= len <= tags.Length && forall i | write <= i < tags.Length :: tags[i] == EMPTY
      ensures Linked(scheme, tags[..write], entries[..], q.items) && write <= entries.Length
      ensures FlagBits(newVisited, Flags(q.items)) && Sieve.Valid(q)
      ensures q.hand == if hand >= len then 0 else InRange(hand - drops, write)
      ensures drops <= hand
    {
      hide IdOf, Matches, Needle, Linked, FlagBits, Flags, UniqueKeys, HandInPass;
      assert tags[..write] + tags[len..len] == tags[..write];
      assert q.items[..write] == q.items;
      RoomForAll(scheme, tags[..write], entries[..], q.items);
      EndHand(q, write, drops);
    }

    /** The end of the pass: the survivors become the shard. */
    method Commit(ghost q: Queue<K, V>, write: nat, newVisited: bv64, drops: nat)
      requires Pass(q, write, len, newVisited, drops)
      modifies this`len, this`visited, this`hand, this`queue
      ensures Loose() && queue == q && len == write
    {
      hide IdOf, Matches, Needle, Linked, FlagBits, Flags, Sieve.Valid, Pass;
      Survivors(q, write, newVisited, drops);
      hand := if hand >= len then 0 else InRange(hand - drops, write);
      len := write;
      visited := newVisited;
      queue := q;
    }

    /**
     The unwinding guard: walks the whole tag array, drops the entry of every tag that is
     still live, and resets the shard. At any abort the live tags name exactly the entries
     that are still initialised, so each is dropped once.
     */
    method GuardDrop(ghost q: Queue<K, V>, ghost write: nat, ghost read: nat, ghost newVisited: bv64, ghost drops: nat)
      returns (rest: seq<Entry<K, V>>)
      requires Pass(q, write, read, newVisited, drops)
      modifies this`len, this`visited, this`hand, this`queue, tags, entries
      ensures Valid() && queue == Empty() && rest == Entries(q.items)
    {
      hide IdOf, Matches, Needle, Linked, Live, Pass, NonEmpty;
      PassPosition(q, write, read, newVisited, drops);
      rest := [];
      ghost var k := 0;
      RowOf(q, write, read);
      for i := 0 to tags.Length
        modifies tags, entries
        invariant k <= |q.items| && rest == Entries(q.items[..k])
        invariant Linked(scheme, NonEmpty(tags[i..]), entries[..], q.items[k..])
        invariant forall j | 0 <= j < i :: tags[j] == EMPTY
      {
        var e := GuardTurn(i, q.items[k..]);
        if e.Some? {
          rest := rest + [e.value];
          assert q.items[k..][1..] == q.items[k + 1..];
          assert q.items[..k + 1] == q.items[..k] + [q.items[k]];
          k := k + 1;
        }
      }
      NothingLinked(q.items[k..]);
      assert q.items[..k] == q.items;
      Reset();
    }

    /** One slot of the guard's pass: the entry it dropped, if any. */
    method GuardTurn(i: nat, ghost items: seq<Item<K, V>>) returns (e: Option<Entry<K, V>>)
      requires Shape() && i < tags.Length && Linked(scheme, NonEmpty(tags[i..]), entries[..], items)
      modifies tags, entries
      ensures tags[i] == EMPTY && forall j | 0 <= j < i :: tags[j] == old(tags[j])
      ensures e.None? ==> Linked(scheme, NonEmpty(tags[i + 1..]), entries[..], items)
      ensures e.Some? ==> |items| > 0 && e.value == Entry(items[0].key, items[0].value) &&
                          Linked(scheme, NonEmpty(tags[i + 1..]), entries[..], items[1..])
    {
      hide IdOf, Matches, Needle, Linked, Live, NonEmpty;
      var t := tags[i];
      ghost var after := tags[i + 1..];
      assert tags[i..] == [t] + after;
      GuardTag(t, after, entries[..], items);
      e := None;
      if Live(t) {
        var dropped := TakeEntry(IdOf(scheme.layout, t));
        tags[i] := EMPTY;
        assert tags[i + 1..] == after;
        e := Some(dropped);
      }
    }

    /** The tag the guard looks at: EMPTY, or live and naming the first entry left. */
    lemma GuardTag(t: bv16, after: seq<bv16>, arena: Arena<K, V>, items: seq<Item<K, V>>)
      requires Linked(scheme, NonEmpty([t] + after), arena, items)
      ensures !Live(t) ==> t == EMPTY && Linked(scheme, NonEmpty(after), arena, items)
      ensures Live(t) ==>
        && |items| > 0 && IdOf(scheme.layout, t) < |arena|
        && arena[IdOf(scheme.layout, t)] == Some(Entry(items[0].key, items[0].value))
        && Linked(scheme, NonEmpty(after), arena[IdOf(scheme.layout, t) := None], items[1..])
    {
      hide IdOf, Matches, Needle, Linked, Live;
      var row := [t] + after;
      assert row[1..] == after;
      LinkedIds(scheme, NonEmpty(row), arena, items);
      if t != EMPTY {
        Named(scheme, NonEmpty(row), arena, items, 0);
        Unlink(scheme, NonEmpty(row), arena, items, 0);
        assert Without(NonEmpty(row), 0) == NonEmpty(after);
        assert Without(items, 0) == items[1..];
      } else {
        EmptyIsDead();
      }
    }

    lemma EmptyIsDead()
      ensures !Live(EMPTY)
    {
    }

    /** With no tag left, no entry and no slot is left. */
    lemma NothingLinked(items: seq<Item<K, V>>)
      requires Linked(scheme, NonEmpty(tags[tags.Length..]), entries[..], items)
      ensures items == [] && forall e | 0 <= e < entries.Length :: entries[e].None?
    {
      hide IdOf, Matches, Needle;
      assert forall e | 0 <= e < entries.Length :: entries[..][e] == entries[e];
    }

    /** Partway, the non-empty tags are the survivors and the unread tags. */
    lemma RowOf(q: Queue<K, V>, write: nat, read: nat)
      requires Partway(q, write, read)
      ensures Linked(scheme, NonEmpty(tags[0..]), entries[..], q.items[0..])
    {
      hide IdOf, Matches, Needle, Linked;
      var a, gap, b, pad := tags[..write], tags[write..read], tags[read..len], tags[len..];
      forall i | 0 <= i < |a + b| ensures (a + b)[i] != EMPTY {
        LinkedIds(scheme, a + b, entries[..], q.items);
        Named(scheme, a + b, entries[..], q.items, i);
      }
      NonEmptyRow(a, gap, b, pad);
      assert tags[0..] == a + gap + b + pad;
      assert q.items[0..] == q.items;
    }

    // ---- retain, second pass: ids ----

    /**
     Restores I8 after the pass: every id at or above `len` is paired with a free one
     below it, lowest first, through two bitmaps.
     */
    method RemapIds()
      requires Loose()
      modifies tags, entries
      ensures Valid() && Remaps(old(IdRow()), IdRow())
    {
      hide IdOf, Matches, Needle, Loose, FlagBits, Linked, Bits.And, Bits.Not, Bits.Or, Blsr, Tz, Bits.Below;
      hide Remaps;
      LooseShape();
      var write := len;
      if write > 0 {
        var occupied := Occupied();
        var lowMask := if write >= 64 then ALL else Below(write);
        var high := And(occupied, Not(lowMask));
        var freeLow := And(Not(occupied), lowMask);
        PairingWords(occupied, lowMask, write, LiveIds());
        PairAll(high, freeLow);
      } else {
        NonePaired(IdRow());
        AllPaired(IdRow(), IdRow());
      }
      BelowIsCompact();
    }

    method PairAll(high: bv64, freeLow: bv64)
      requires Loose()
      requires Ones(high) == LiveIds() - UpTo(len) && Ones(freeLow) == UpTo(len) - LiveIds()
      modifies tags, entries
      ensures Loose() && LiveIds() <= UpTo(len) && Remaps(old(IdRow()), IdRow())
    {
      hide Loose, Ones, LiveIds, Partly, Remaps, LowestPair, IdRow;
      LooseShape();
      var h, f := high, freeLow;
      ghost var ids := IdRow();
      DistinctLiveIds();
      NonePaired(ids);
      while h != 0
        modifies tags, entries
        invariant Loose() && Partly(ids, IdRow())
        invariant Ones(h) == LiveIds() - UpTo(len) && Ones(f) == UpTo(len) - LiveIds()
        decreases |Ones(h)|
      {
        ghost var now := IdRow();
        ghost var i, free;
        h, f, i, free := PairOnce(h, f);
        PairedPartly(ids, now, i, free);
      }
      ZeroHasNoOnes();
      LiveIdsAreLow();
      AllPaired(ids, IdRow());
    }

    lemma LiveIdsAreLow()
      requires Shape() && LiveIds() <= UpTo(len)
      ensures forall i | 0 <= i < |IdRow()| :: IdRow()[i] < |IdRow()|
    {
      hide IdOf;
      forall i | 0 <= i < |IdRow()| ensures IdRow()[i] < |IdRow()| { assert IdRow()[i] in LiveIds(); }
    }

    /** The lowest id above `len` gives its entry to the lowest free one below it. */
    method PairOnce(high: bv64, freeLow: bv64)
      returns (high': bv64, freeLow': bv64, ghost i: nat, ghost free: nat)
      requires Loose() && high != 0
      requires Ones(high) == LiveIds() - UpTo(len) && Ones(freeLow) == UpTo(len) - LiveIds()
      modifies tags, entries
      ensures Loose()
      ensures LowestPair(old(IdRow()), i, free) && IdRow() == old(IdRow())[i := free]
      ensures Ones(high') == LiveIds() - UpTo(len) && Ones(freeLow') == UpTo(len) - LiveIds()
      ensures |Ones(high')| < |Ones(high)|
    {
      hide IdOf, Matches, Needle, Loose, Blsr, Tz, Ones, LowestPair;
      LooseShape();
      EqualPairs(high, freeLow);
      OnesBlsr(high);
      OnesBlsr(freeLow);
      var h := Tz(high);
      var l := Tz(freeLow);
      var owner := OwnerOf(h);
      SlotIsFree(l);
      MovedId(owner, l);
      LowestOnes(high, freeLow, owner);
      MoveEntry(owner, l);
      i, free := owner, l;
      high' := Blsr(high);
      freeLow' := Blsr(freeLow);
    }

    /** The lowest ones of the two words are the lowest high id and the lowest free one. */
    lemma LowestOnes(high: bv64, freeLow: bv64, i: nat)
      requires Loose() && high != 0 && freeLow != 0
      requires Ones(high) == LiveIds() - UpTo(len) && Ones(freeLow) == UpTo(len) - LiveIds()
      requires i < len && IdOf(scheme.layout, tags[i]) == Tz(high)
      ensures LowestPair(IdRow(), i, Tz(freeLow))
    {
      hide IdOf, Matches, Needle, Loose, Tz, Ones;
      LooseShape();
      OnesBlsr(high);
      OnesBlsr(freeLow);
      var ids := IdRow();
      forall j | 0 <= j < len && len <= ids[j] ensures ids[i] <= ids[j] { assert ids[j] in Ones(high); }
      forall y: nat | y < len && y !in ids ensures Tz(freeLow) <= y { assert y in Ones(freeLow); }
    }

    ghost function LiveIds(): set<nat>
      requires Shape()
      reads this`len, tags
    {
      Elements(Ids(scheme.layout, LiveTags()))
    }

    method Occupied() returns (occupied: bv64)
      requires Loose()
      ensures Ones(occupied) == LiveIds()
    {
      hide IdOf, Matches, Needle, Loose, Bits.Or;
      LooseShape();
      ghost var ids := Ids(scheme.layout, LiveTags());
      occupied := 0;
      ZeroHasNoOnes();
      for i := 0 to len
        invariant Ones(occupied) == Elements(ids[..i])
      {
        IdBound(scheme.layout, tags[i]);
        OnesOr(occupied, ids[i]);
        occupied := Or(occupied, Shl1(IdOf(scheme.layout, tags[i])));
        assert ids[..i + 1] == ids[..i] + [ids[i]];
      }
      assert ids[..len] == ids;
    }

    /** As many ids lie above `len` as are free below it. */
    lemma EqualPairs(high: bv64, freeLow: bv64)
      requires Loose() && high != 0
      requires Ones(high) == LiveIds() - UpTo(len) && Ones(freeLow) == UpTo(len) - LiveIds()
      ensures |Ones(high)| == |Ones(freeLow)| && freeLow != 0
      ensures Tz(high) in LiveIds() && len <= Tz(high)
    {
      hide IdOf, Matches, Needle, Loose;
      LooseShape();
      DistinctLiveIds();
      DistinctCount(Ids(scheme.layout, LiveTags()));
      SameDifference(LiveIds(), UpTo(len));
      OnesBlsr(high);
      if freeLow == 0 { ZeroHasNoOnes(); }
    }

    /** The tag that carries a live id. */
    method OwnerOf(h: nat) returns (i: nat)
      requires Loose() && h in LiveIds()
      ensures i < len && IdOf(scheme.layout, tags[i]) == h
    {
      hide IdOf, Matches, Needle, Loose;
      LooseShape();
      ghost var ids := Ids(scheme.layout, LiveTags());
      ghost var k :| 0 <= k < |ids| && ids[k] == h;
      for j := 0 to len
        invariant forall m | 0 <= m < j :: IdOf(scheme.layout, tags[m]) != h
      {
        if IdOf(scheme.layout, tags[j]) == h { return j; }
      }
      assert false;
    }

    lemma SlotIsFree(l: nat)
      requires Loose() && l < len && l !in LiveIds()
      ensures l < entries.Length && entries[l].None?
    {
      hide IdOf, Matches, Needle;
      LinkedIds(scheme, LiveTags(), entries[..], queue.items);
      assert entries[..][l].None?;
    }

    lemma MovedId(i: nat, l: nat)
      requires Loose() && i < len
      ensures Elements(Ids(scheme.layout, LiveTags())[i := l]) == LiveIds() - {IdOf(scheme.layout, tags[i])} + {l}
    {
      hide IdOf, Matches, Needle;
      var ids := Ids(scheme.layout, LiveTags());
      DistinctLiveIds();
      forall x ensures x in ids[i := l] <==> x == l || (x in ids && x != ids[i]) {
        UpdateElement(ids, i, l, x);
      }
    }

    lemma BelowIsCompact()
      requires Loose() && LiveIds() <= UpTo(len)
      ensures Valid()
    {
      hide IdOf, Matches, Needle, Linked;
      var ids := Ids(scheme.layout, LiveTags());
      forall i | 0 <= i < len ensures IdOf(scheme.layout, tags[i]) < len { assert ids[i] in LiveIds(); }
    }

    // ---- clear ----

    /** Drops every live entry, once each, and resets the shard. */
    method Clear() returns (dropped: seq<Entry<K, V>>)
      requires Valid()
      modifies this`len, this`visited, this`hand, this`queue, tags, entries
      ensures Valid() && queue == Empty()
      ensures dropped == Entries(old(queue).items)
    {
      hide Valid;
      Lengths();
      dropped := DropEntries();
      ZeroTags();
      Reset();
    }

    /** `drop_in_place` for the entry of every live tag; the ids are distinct. */
    method DropEntries() returns (dropped: seq<Entry<K, V>>)
      requires Valid()
      modifies entries
      ensures dropped == Entries(queue.items) && forall e | 0 <= e < entries.Length :: entries[e].None?
    {
      hide IdOf, Matches, Needle, Linked, FlagBits, Compact, UniqueKeys;
      Lengths();
      dropped := [];
      ghost var live, items := LiveTags(), queue.items;
      assert live[0..] == live && items[0..] == items;
      for i := 0 to len
        invariant dropped == Entries(items[..i])
        invariant Linked(scheme, live[i..], entries[..], items[i..])
      {
        var t := tags[i];
        assert live[i..][0] == t && items[i..][0] == items[i];
        Named(scheme, live[i..], entries[..], items[i..], 0);
        Unlink(scheme, live[i..], entries[..], items[i..], 0);
        assert Without(live[i..], 0) == live[i + 1..] && Without(items[i..], 0) == items[i + 1..];
        var e := TakeEntry(IdOf(scheme.layout, t));
        dropped := dropped + [e];
        assert items[..i + 1] == items[..i] + [items[i]];
      }
      assert items[..len] == items && live[len..] == [];
      NoTagNoEntry(entries[..], items[len..]);
    }

    lemma NoTagNoEntry(arena: Arena<K, V>, items: seq<Item<K, V>>)
      requires Linked(scheme, [], arena, items)
      ensures forall e | 0 <= e < |arena| :: arena[e].None?
    {
      hide IdOf, Matches, Needle;
    }

    method ZeroTags()
      requires len <= tags.Length && forall j | len <= j < tags.Length :: tags[j] == EMPTY
      modifies tags
      ensures forall j | 0 <= j < tags.Length :: tags[j] == EMPTY
    {
      for i := 0 to len
        invariant forall j | 0 <= j < i :: tags[j] == EMPTY
        invariant forall j | len <= j < tags.Length :: tags[j] == EMPTY
      {
        tags[i] := EMPTY;
      }
    }

    /**
     Lends the arena to a drain: the tags are zeroed and the shard is empty from here on;
     the slots are the drain's to read out.
     */
    method Lend() returns (oldLen: nat, arena: seq<Option<Entry<K, V>>>)
      requires Valid()
      modifies this`len, this`visited, this`hand, this`queue, tags, entries
      ensures Valid() && queue == Empty()
      ensures oldLen == old(len) && arena == old(entries[..])
    {
      oldLen := len;
      ZeroTags();
      arena := entries[..];
      forall e | 0 <= e < entries.Length { entries[e] := None; }
      Reset();
    }

    // ---- clone ----

    /** A shard of its own with the same queue: entries first, then written raw to the same ids. */
    method Clone() returns (c: Shard<K, V>)
      requires Valid()
      ensures fresh(c.Repr()) && c.Valid() && c.queue == queue
      ensures c.scheme == scheme && c.Capacity() == Capacity()
      ensures c.hits == hits && c.misses == misses && c.insertions == insertions && c.evictions == evictions
    {
      hide IdOf, Matches, Needle, FlagBits, Linked, Compact;
      Lengths();
      ghost var ids := Ids(scheme.layout, LiveTags());
      LinkedIds(scheme, LiveTags(), entries[..], queue.items);
      var cloned: seq<(nat, Entry<K, V>)> := [];
      for i := 0 to len
        invariant |cloned| == i
        invariant forall j | 0 <= j < i ::
          ids[j] < entries.Length && entries[ids[j]] == Some(cloned[j].1) && cloned[j].0 == ids[j]
      {
        LiveTag(i, queue.items[i].key);
        var id := IdOf(scheme.layout, tags[i]);
        cloned := cloned + [(id, entries[id].value)];
      }
      c := new Shard(Capacity(), scheme.layout.shift, scheme.hasher);
      c.CopyFields(this);
      assert ids[..len] == ids;
      c.WriteAll(cloned, ids, entries[..]);
      assert c.tags[..] == tags[..] && c.LiveTags() == LiveTags();
    }

    /** Every slot is written raw once: the ids are distinct, so it is still free. */
    method WriteAll(cloned: seq<(nat, Entry<K, V>)>, ghost ids: seq<nat>, ghost arena: Arena<K, V>)
      requires |ids| == |cloned| && Distinct(ids) && |arena| == entries.Length && ArenaIs(arena, ids)
      requires forall j | 0 <= j < |ids| ::
        cloned[j].0 == ids[j] < |arena| && arena[ids[j]] == Some(cloned[j].1)
      requires forall e | 0 <= e < entries.Length :: entries[e].None?
      modifies entries
      ensures entries[..] == arena
    {
      for i := 0 to |cloned|
        invariant forall e | 0 <= e < |arena| :: entries[e] == if e in ids[..i] then arena[e] else None
      {
        assert ids[i] !in ids[..i];
        WriteEntry(cloned[i].0, cloned[i].1);
        assert ids[..i + 1] == ids[..i] + [ids[i]];
      }
      assert ids[..|ids|] == ids;
    }

    method CopyFields(from: Shard<K, V>)
      requires tags != from.tags && tags.Length == from.tags.Length
      modifies this, tags
      ensures tags[..] == from.tags[..]
      ensures len == from.len && visited == from.visited && hand == from.hand && queue == from.queue
      ensures hits == from.hits && misses == from.misses && insertions == from.insertions && evictions == from.evictions
    {
      forall i | 0 <= i < tags.Length { tags[i] := from.tags[i]; }
      len, visited, hand := from.len, from.visited, from.hand;
      hits, misses, insertions, evictions := from.hits, from.misses, from.insertions, from.evictions;
      queue := from.queue;
    }

    /** With every tag EMPTY and every slot free, the shard is a valid empty one. */
    method Reset()
      requires Shape() && (forall i | 0 <= i < tags.Length :: tags[i] == EMPTY)
      requires forall e | 0 <= e < entries.Length :: entries[e].None?
      modifies this`len, this`visited, this`hand, this`queue
      ensures Valid() && queue == Empty()
    {
      hand, len, visited := 0, 0, 0;
      queue := Empty();
      NoFlags();
      assert Ids(scheme.layout, LiveTags()) == [];
    }
  }

  /** A visited bit does not move a key. */
  lemma MarkKeepsIndex<K, V>(items: seq<Item<K, V>>, pos: nat, key: K)
    requires pos < |items|
    ensures IndexOf(items[pos := items[pos].(visited := true)], key) == IndexOf(items, key)
  {
    hide IndexOf;
    var items' := items[pos := items[pos].(visited := true)];
    assert forall j | 0 <= j < |items| :: items'[j].key == items[j].key;
  }

  /** A key that was absent is the newest entry after its insertion. */
  lemma InsertedIsNewest<K, V>(q: Queue<K, V>, capacity: nat, key: K, value: V)
    requires Sieve.Valid(q) && 0 < capacity && |q.items| <= capacity && !Has(q, key)
    ensures var q' := Sieve.Insert(q, capacity, key, value).1; var n := |q'.items|;
      n > 0 && q'.items[n - 1] == Item(key, value, false) && IndexOf(q'.items, key) == n - 1
  {
    hide Sweep;
    if |q.items| == capacity { MissesStay(q, key); }
  }
}

/**
 The c13s and c14s shards, run by one thread: the queue order of the sharded cache,
 but the tail is shifted slot by slot, the hand walks linearly, and an update in place
 goes through EMPTY and flips the tag's VERSION bit. c14s adds a reader that notices
 holes (slots a writer holds) and retries a bounded number of times.
 */
module Versioned {
  import opened Bits
  import opened Tags
  import opened Sieve
  import opened Links
  import opened Words
  import opened Simd

  datatype Probe<+V> = Found(value: V) | Racing | Miss

  const MAX_READER_RETRY: nat := 4

  /**
   How many scans the retry loop makes in all, after `n` of them: it stops at the first
   value, at the first miss without a hole, or after four scans.
   */
  function Scans<V>(scan: nat -> (Option<V>, bool), n: nat): (r: nat)
    requires n < MAX_READER_RETRY
    ensures n < r <= MAX_READER_RETRY
    ensures forall m | n <= m < r - 1 :: scan(m) == (None, true)
    ensures r < MAX_READER_RETRY ==> scan(r - 1) != (None, true)
    decreases MAX_READER_RETRY - n
  {
    var seen := scan(n);
    if seen.0.Some? || !seen.1 || n + 1 == MAX_READER_RETRY then n + 1 else Scans(scan, n + 1)
  }

  function Always<T>(x: T): nat -> T { _ => x }

  /** When nothing changes between scans: one scan, or all four. */
  lemma AlwaysScans<V>(seen: (Option<V>, bool))
    ensures Scans(Always(seen), 0) == if seen.0.None? && seen.1 then MAX_READER_RETRY else 1
  {
  }

  class Shard<K(==), V> {
    const scheme: Scheme<K>
    /** How often an update in place is tried: 4 in c13s, 1 in c14s. */
    const maxRetry: nat
    const tags: array<bv16>
    const visited: array<bv64>
    const entries: array<Option<Entry<K, V>>>
    var len: nat
    var hand: nat

    ghost var queue: Queue<K, V>

    ghost predicate Shape()
      reads this`len
    {
      && ValidLayout(scheme.layout) && scheme.layout.versioned
      && 0 < entries.Length <= MAX_PER_SHARD
      && tags.Length == RoundUp(entries.Length)
      && tags.Length <= 64 * visited.Length
      && tags as object != entries as object && tags as object != visited as object
      && visited as object != entries as object
      && len <= entries.Length && 0 < maxRetry
    }

    ghost predicate Valid()
      reads this`len, this`hand, this`queue, tags, visited, entries
    {
      && Shape()
      && (forall i | len <= i < tags.Length :: tags[i] == EMPTY)
      && Linked(scheme, tags[..len], entries[..], queue.items)
      && Compact(scheme.layout, tags[..len])
      && Vis(visited[..])[..len] == Flags(queue.items)
      && hand == queue.hand
      && Sieve.Valid(queue)
    }

    function Capacity(): nat { entries.Length }

    constructor (capacity: nat, layout: Layout, hasher: K -> bv64, maxRetry: nat)
      requires 0 < capacity <= MAX_PER_SHARD && ValidLayout(layout) && layout.versioned && 0 < maxRetry
      ensures Valid() && queue == Empty() && Capacity() == capacity && scheme == Scheme(layout, hasher)
      ensures fresh(this) && fresh(tags) && fresh(visited) && fresh(entries)
    {
      scheme, this.maxRetry := Scheme(layout, hasher), maxRetry;
      var orderCap := RoundUp(capacity);
      tags := new bv16[orderCap](_ => EMPTY);
      visited := new bv64[(orderCap + 63) / 64](_ => 0);
      entries := new Option<Entry<K, V>>[capacity](_ => None);
      len, hand := 0, 0;
      queue := Empty();
    }

    lemma Facts()
      requires Valid()
      ensures Shape() && len == |queue.items| && Sieve.Valid(queue)
    {
    }

    /** What the tag at a live position gives. */
    lemma LiveAt(i: nat, key: K)
      requires Valid() && i < len
      ensures var t := tags[i]; var id := IdOf(scheme.layout, t);
        && id < entries.Length && entries[id].Some? && Live(t) && t != EMPTY
        && entries[id].value == Entry(queue.items[i].key, queue.items[i].value)
        && (queue.items[i].key == key ==> Matches(scheme.layout, t, NeedleOf(scheme, key)))
    {
      hide IdOf, Matches, Needle, Live;
      Named(scheme, tags[..len], entries[..], queue.items, i);
    }

    // ---- readers ----

    /**
     The shard at one instant, as a reader may see it: every tag is EMPTY or live, and a
     live tag names an initialised slot. A hole below `len` is a slot a writer holds.
     */
    ghost predicate Frozen()
      reads this`len, tags, entries
    {
      && Shape()
      && forall i | 0 <= i < tags.Length :: tags[i] == EMPTY || (Live(tags[i]) && NamesEntry(tags[i]))
    }

    ghost predicate NamesEntry(t: bv16)
      requires ValidLayout(scheme.layout)
      reads entries
    {
      IdOf(scheme.layout, t) < entries.Length && entries[IdOf(scheme.layout, t)].Some?
    }

    lemma ValidIsFrozen()
      requires Valid()
      ensures Frozen() && forall i | 0 <= i < len :: Live(tags[i])
    {
      hide IdOf, Matches, Needle, Live, Linked;
      Facts();
      forall i | 0 <= i < tags.Length ensures tags[i] == EMPTY || (Live(tags[i]) && NamesEntry(tags[i])) {
        if i < len { LiveAt(i, queue.items[i].key); }
      }
      forall i | 0 <= i < len ensures Live(tags[i]) { LiveAt(i, queue.items[i].key); }
    }

    /** The tag at `i` matches and its entry has the key. */
    ghost predicate Hit(i: nat, key: K)
      requires Shape() && i < tags.Length
      reads this`len, tags, entries
    {
      && Matches(scheme.layout, tags[i], NeedleOf(scheme, key))
      && NamesEntry(tags[i])
      && entries[IdOf(scheme.layout, tags[i])].value.key == key
    }

    ghost function FirstHit(key: K, i: nat): (r: nat)
      requires Shape() && i <= len
      reads this`len, tags, entries
      ensures i <= r <= len
      ensures r < len ==> Hit(r, key)
      ensures forall j | i <= j < r :: !Hit(j, key)
      decreases len - i
    {
      if i == len || Hit(i, key) then i else FirstHit(key, i + 1)
    }

    /** The first hit's value; on a miss, whether a hole was seen. */
    ghost function ScanResult(key: K): (Option<V>, bool)
      requires Shape()
      reads this`len, tags, entries
    {
      var i := FirstHit(key, 0);
      if i < len then (Some(entries[IdOf(scheme.layout, tags[i])].value.value), false)
      else (None, exists j | 0 <= j < len :: !Live(tags[j]))
    }

    ghost function Marked(key: K): seq<bool>
      requires Shape()
      reads this`len, tags, entries, visited
    {
      var i := FirstHit(key, 0);
      var vis := Vis(visited[..]);
      if i < len then vis[i := true] else vis
    }

    /** One candidate: tag, entry, tag again. On a frozen shard the second tag is the first. */
    method TryCandidate(pos: nat, key: K, needle: bv16) returns (r: Probe<V>)
      requires Frozen() && pos < len && needle == NeedleOf(scheme, key)
      modifies visited
      ensures if Hit(pos, key) then r == Found(entries[IdOf(scheme.layout, tags[pos])].value.value) else r == Miss
      ensures Vis(visited[..]) == if Hit(pos, key) then old(Vis(visited[..]))[pos := true] else old(Vis(visited[..]))
    {
      hide IdOf, Matches, Needle, Live, Vis;
      NeedleShape(scheme.layout, scheme.hasher(key));
      var t1 := tags[pos];
      if !Matches(scheme.layout, t1, needle) { return Miss; }
      MatchIsLive(scheme.layout, t1, needle);
      var entry := entries[IdOf(scheme.layout, t1)].value;
      var t2 := tags[pos];
      if t2 != t1 || !Live(t2) { return Racing; }
      if entry.key == key {
        MarkBit(visited, pos, true);
        return Found(entry.value);
      }
      return Miss;
    }

    /** `!Live` tags below `n`. */
    ghost predicate HoleBelow(n: nat)
      requires n <= tags.Length
      reads tags
    {
      exists j :: 0 <= j < n && !Live(tags[j])
    }

    method FindGetScalar(key: K, needle: bv16) returns (r: Option<V>, racing: bool)
      requires Frozen() && needle == NeedleOf(scheme, key)
      modifies visited
      ensures (r, racing) == ScanResult(key) && Vis(visited[..]) == old(Marked(key))
    {
      hide IdOf, Matches, Needle, Live, Vis;
      NeedleShape(scheme.layout, scheme.hasher(key));
      racing := false;
      for i := 0 to len
        modifies visited
        invariant Frozen() && Vis(visited[..]) == old(Vis(visited[..]))
        invariant forall j | 0 <= j < i :: !Hit(j, key)
        invariant racing <==> HoleBelow(i)
      {
        var t := tags[i];
        if Matches(scheme.layout, t, needle) {
          MatchIsLive(scheme.layout, t, needle);
          var probe := TryCandidate(i, key, needle);
          match probe
          case Found(v) =>
            FirstHitIs(key, 0, i);
            return Some(v), false;
          case Racing => racing := true;
          case Miss =>
        } else if !Live(t) {
          racing := true;
        }
      }
      FirstHitIs(key, 0, len);
      r := None;
    }

    lemma FirstHitIs(key: K, i: nat, r: nat)
      requires Shape() && i <= r <= len
      requires forall j | i <= j < r :: !Hit(j, key)
      requires r < len ==> Hit(r, key)
      ensures FirstHit(key, i) == r
      decreases r - i
    {
      if i < r { FirstHitIs(key, i + 1, r); }
    }

    /** The lanes of one load whose masked tag equals `word`. */
    function CompareLanes(i: nat, word: bv16): (cmp: seq<bool>)
      requires ValidLayout(scheme.layout) && i + LANE <= tags.Length
      reads tags
      ensures |cmp| == LANE
      ensures forall k | 0 <= k < LANE :: cmp[k] == (ScanBits(scheme.layout, tags[i + k]) == word)
    {
      seq(LANE, k requires 0 <= k < LANE && i + k < tags.Length reads tags =>
        ScanBits(scheme.layout, tags[i + k]) == word)
    }

    /** Whether a lane below `len` of this load is a hole: the pad lanes are masked out. */
    method SeesHole(i: nat) returns (racing: bool)
      requires Frozen() && i + LANE <= tags.Length && i < len
      ensures racing <==> exists j :: i <= j < i + LANE && j < len && !Live(tags[j])
    {
      hide Live, ScanBits, Below, Bits.And, MoveMask;
      var emptyCmp := CompareLanes(i, 0);
      var emptyMask := MoveMask(emptyCmp);
      var liveLanes := if len - i < LANE then len - i else LANE;
      KeepLanes(emptyCmp, liveLanes);
      if liveLanes < LANE {
        emptyMask := And(emptyMask, Below(2 * liveLanes));
      } else {
        AllLanes(emptyCmp);
      }
      racing := emptyMask != 0;
      forall k | 0 <= k < liveLanes ensures emptyCmp[k] <==> !Live(tags[i + k]) {
        HoleLane(tags[i + k]);
      }
      if racing {
        var k :| 0 <= k < liveLanes && emptyCmp[k];
        assert !Live(tags[i + k]);
      } else {
        forall j | i <= j < i + LANE && j < len ensures Live(tags[j]) { assert !emptyCmp[j - i]; }
      }
    }

    lemma HoleLane(t: bv16)
      requires ValidLayout(scheme.layout) && (t == EMPTY || Live(t))
      ensures ScanBits(scheme.layout, t) == 0 <==> !Live(t)
    {
    }

    /** The pairs of one load that are below `len` and match, lowest first. */
    method ProbeChunk(i: nat, key: K, needle: bv16) returns (r: Option<V>, racing: bool)
      requires Frozen() && needle == NeedleOf(scheme, key) && i + LANE <= tags.Length
      requires forall j | 0 <= j < i && j < len :: !Hit(j, key)
      modifies visited
      ensures r.Some? ==> FirstHit(key, 0) < len &&
                          r == Some(entries[IdOf(scheme.layout, tags[FirstHit(key, 0)])].value.value)
      ensures r.None? ==> forall j | 0 <= j < i + LANE && j < len :: !Hit(j, key)
      ensures Vis(visited[..]) == if r.Some? then old(Marked(key)) else old(Vis(visited[..]))
      ensures !racing
    {
      hide IdOf, Needle, Live, Vis, Tz, Blsr, MaskFrom, MoveMask, ScanBits, Frozen, FirstHit, Hit, Matches;
      FrozenShape();
      NeedleShape(scheme.layout, scheme.hasher(key));
      r, racing := None, false;
      var cmp := CompareLanes(i, needle);
      var mask := MoveMask(cmp);
      MoveMaskBits(cmp);
      ghost var c := 0;
      while mask != 0
        modifies visited
        invariant c <= LANE && MaskFrom(mask, cmp, c) && !racing
        invariant forall j | 0 <= j < i + c && j < len :: !Hit(j, key)
        invariant Frozen() && Vis(visited[..]) == old(Vis(visited[..]))
        decreases LANE - c
      {
        var bit := Tz(mask);
        ghost var k := NextLane(mask, cmp, c);
        assert bit / 2 == k;
        NoHits(cmp, i, c, k, key, needle);
        var pos := i + bit / 2;
        if pos < len {
          var probe := TryCandidate(pos, key, needle);
          match probe
          case Found(v) =>
            FirstHitIs(key, 0, pos);
            r := Some(v);
            return;
          case Racing => racing := true;
          case Miss =>
        }
        mask := Blsr(mask);
        mask := Blsr(mask);
        c := k + 1;
      }
      NoLaneLeft(mask, cmp, c);
      NoHits(cmp, i, c, LANE, key, needle);
    }

    lemma FrozenShape()
      requires Frozen()
      ensures Shape()
    {
    }

    lemma NoHits(cmp: seq<bool>, i: nat, c: nat, k: nat, key: K, needle: bv16)
      requires Shape() && needle == NeedleOf(scheme, key)
      requires |cmp| == LANE && i + LANE <= tags.Length && k <= LANE
      requires forall j | 0 <= j < LANE :: cmp[j] == (ScanBits(scheme.layout, tags[i + j]) == needle)
      requires forall j | c <= j < k :: !cmp[j]
      ensures forall j | i + c <= j < i + k && j < len :: !Hit(j, key)
    {
      hide IdOf, Needle, ScanBits;
      forall j | i + c <= j < i + k && j < len ensures !Hit(j, key) { assert !cmp[j - i]; }
    }

    method FindGetAvx2(key: K, needle: bv16) returns (r: Option<V>, racing: bool)
      requires Frozen() && needle == NeedleOf(scheme, key)
      modifies visited
      ensures (r, racing) == ScanResult(key) && Vis(visited[..]) == old(Marked(key))
    {
      hide IdOf, Needle, Live, Vis, Frozen, FirstHit, Matches;
      FrozenShape();
      var limit := tags.Length;
      var i := 0;
      racing := false;
      while i < limit
        modifies visited
        invariant i % LANE == 0 && i <= limit
        invariant Frozen() && Vis(visited[..]) == old(Vis(visited[..]))
        invariant forall j | 0 <= j < i && j < len :: !Hit(j, key)
        invariant racing <==> exists j :: 0 <= j < i && j < len && !Live(tags[j])
      {
        if i < len {
          var hole := SeesHole(i);
          if hole { racing := true; }
        }
        var raced;
        r, raced := ProbeChunk(i, key, needle);
        if r.Some? {
          racing := false;
          return;
        }
        racing := racing || raced;
        i := i + LANE;
      }
      FirstHitIs(key, 0, len);
      r := None;
    }

    method FindGet(key: K, needle: bv16, hasAvx2: bool) returns (r: Option<V>, racing: bool)
      requires Frozen() && needle == NeedleOf(scheme, key)
      modifies visited
      ensures (r, racing) == ScanResult(key) && Vis(visited[..]) == old(Marked(key))
    {
      if hasAvx2 {
        r, racing := FindGetAvx2(key, needle);
      } else {
        r, racing := FindGetScalar(key, needle);
      }
    }

    /** c14s: scans again, at most three times more, only while a miss has seen a hole. */
    method GetByHash(key: K, hash: bv64, hasAvx2: bool) returns (r: Option<V>, scans: nat)
      requires Frozen() && hash == scheme.hasher(key)
      modifies visited
      ensures r == ScanResult(key).0 && Vis(visited[..]) == old(Marked(key))
      ensures scans == Scans(Always(ScanResult(key)), 0)
      ensures scans == if r.None? && HoleBelow(len) then MAX_READER_RETRY else 1
    {
      hide IdOf, Needle, Live, Vis, Frozen, FirstHit, Matches, Scans, Always;
      FrozenShape();
      AlwaysScans(ScanResult(key));
      var needle := Needle(scheme.layout, hash);
      var racing;
      r, racing := FindGet(key, needle, hasAvx2);
      scans := 1;
      if r.Some? { return; }
      if !racing { return; }
      for n := 1 to MAX_READER_RETRY
        modifies visited
        invariant Frozen() && Vis(visited[..]) == old(Vis(visited[..])) && scans == n
        invariant r.None? && racing && ScanResult(key) == (None, true)
      {
        r, racing := FindGet(key, needle, hasAvx2);
        scans := scans + 1;
        if r.Some? { return; }
        if !racing { return; }
      }
    }

    /** On a valid shard the first hit is the key's place in the queue. */
    lemma HitIsIndex(key: K)
      requires Valid()
      ensures FirstHit(key, 0) == IndexOf(queue.items, key) && !HoleBelow(len)
      ensures ScanResult(key) == (Sieve.Peek(queue, key), false)
    {
      hide IdOf, Matches, Needle, Live, Linked, Compact, FirstHit;
      Facts();
      ValidIsFrozen();
      var i := IndexOf(queue.items, key);
      forall j | 0 <= j < len ensures Hit(j, key) <==> queue.items[j].key == key { LiveAt(j, key); }
      FirstHitIs(key, 0, i);
      if i < len { LiveAt(i, key); }
    }

    /** A lookup with no writer about: one scan, and the policy's answer. */
    method Get(key: K, hash: bv64, hasAvx2: bool, retrying: bool) returns (r: Option<V>)
      requires Valid() && hash == scheme.hasher(key)
      modifies this`queue, visited
      ensures Valid() && (r, queue) == Sieve.Get(old(queue), key)
    {
      hide IdOf, Matches, Needle, Live, Linked, Compact, FirstHit, Vis, ScanResult;
      Facts();
      ValidIsFrozen();
      HitIsIndex(key);
      ghost var i := IndexOf(queue.items, key);
      if retrying {
        var scans;
        r, scans := GetByHash(key, hash, hasAvx2);
        assert scans == 1;
      } else {
        var racing;
        r, racing := FindGet(key, Needle(scheme.layout, hash), hasAvx2);
      }
      if i < len {
        assert queue.items[i := queue.items[i].(value := queue.items[i].value)] == queue.items;
        Touch(i, queue.items[i].value);
      }
    }

    /** The queue takes over a new value and a mark that the arrays already show. */
    ghost method Touch(i: nat, value: V)
      requires Shape() && i < len == |queue.items| && Sieve.Valid(queue) && hand == queue.hand
      requires forall j | len <= j < tags.Length :: tags[j] == EMPTY
      requires Linked(scheme, tags[..len], entries[..], queue.items[i := queue.items[i].(value := value)])
      requires Compact(scheme.layout, tags[..len])
      requires Vis(visited[..])[..len] == Flags(queue.items)[i := true]
      modifies this`queue
      ensures Valid()
      ensures queue == old(queue).(items :=
                         old(queue).items[i := old(queue).items[i].(value := value, visited := true)])
    {
      hide IdOf, Matches, Needle, Linked, Compact, Vis;
      var items' := queue.items[i := queue.items[i].(value := value, visited := true)];
      Reflag(scheme, tags[..len], entries[..], queue.items[i := queue.items[i].(value := value)], items');
      assert Flags(items') == Flags(queue.items)[i := true];
      queue := queue.(items := items');
    }

    // ---- insert ----

    method Insert(key: K, value: V, hash: bv64, hasAvx2: bool) returns (evicted: Option<(K, V)>)
      requires Valid() && hash == scheme.hasher(key)
      modifies this`len, this`hand, this`queue, tags, visited, entries
      ensures Valid() && (evicted, queue) == Sieve.Insert(old(queue), Capacity(), key, value)
    {
      hide IdOf, Matches, Needle, Valid;
      ValidFacts();
      var needle := Needle(scheme.layout, hash);
      var done := TryPathA(key, needle, value, hasAvx2);
      if done { return None; }
      evicted := PathBC(key, value, needle);
    }

    lemma ValidFacts()
      requires Valid()
      ensures Shape() && len == |queue.items| <= entries.Length && Sieve.Valid(queue)
    {
    }

    method FindForWriter(key: K, needle: bv16) returns (r: Option<(nat, bv16)>)
      requires Valid() && needle == NeedleOf(scheme, key)
      ensures var i := IndexOf(queue.items, key); r == if i < len then Some((i, tags[i])) else None
    {
      hide IdOf, Matches, Needle, Live, Linked, Compact, Vis;
      Facts();
      for pos := 0 to len
        invariant forall j | 0 <= j < pos :: queue.items[j].key != key
      {
        LiveAt(pos, key);
        var t := tags[pos];
        if Matches(scheme.layout, t, needle) {
          if entries[IdOf(scheme.layout, t)].value.key == key { return Some((pos, t)); }
        }
      }
      r := None;
    }

    /** One vector load of path A's scan: the matching lanes below `len`, lowest first. */
    method FindInChunk(i: nat, key: K, needle: bv16) returns (r: Option<(nat, bv16)>)
      requires Valid() && needle == NeedleOf(scheme, key) && i + LANE <= tags.Length
      requires len == |queue.items| && forall j | 0 <= j < i && j < len :: queue.items[j].key != key
      ensures r.Some? ==> r.value.0 == IndexOf(queue.items, key) < len <= tags.Length && r.value.1 == tags[r.value.0]
      ensures r.None? ==> forall j | 0 <= j < i + LANE && j < len :: queue.items[j].key != key
    {
      hide IdOf, Matches, Needle, Live, Linked, Compact, Vis, Tz, Blsr, MaskFrom, MoveMask, ScanBits, Valid;
      ValidFacts();
      var cmp := CompareLanes(i, needle);
      var mask := MoveMask(cmp);
      MoveMaskBits(cmp);
      ghost var c := 0;
      while mask != 0
        invariant c <= LANE && MaskFrom(mask, cmp, c)
        invariant forall j | 0 <= j < i + c && j < len :: queue.items[j].key != key
        decreases LANE - c
      {
        var bit := Tz(mask);
        ghost var k := NextLane(mask, cmp, c);
        assert bit / 2 == k;
        OtherKeys(cmp, i, c, k, key, needle);
        var pos := i + bit / 2;
        if pos < len {
          r := TryForPathA(pos, key, needle);
          if r.Some? { return; }
        }
        mask := Blsr(mask);
        mask := Blsr(mask);
        c := k + 1;
      }
      NoLaneLeft(mask, cmp, c);
      OtherKeys(cmp, i, c, LANE, key, needle);
      r := None;
    }

    /** A candidate of path A: its tag, its entry, its tag again, and then the key. */
    method TryForPathA(pos: nat, key: K, needle: bv16) returns (r: Option<(nat, bv16)>)
      requires Valid() && needle == NeedleOf(scheme, key) && pos < len == |queue.items|
      requires forall j | 0 <= j < pos :: queue.items[j].key != key
      ensures r.Some? ==> r.value.0 == IndexOf(queue.items, key) < len <= tags.Length && r.value.1 == tags[r.value.0]
      ensures r.None? ==> queue.items[pos].key != key
    {
      hide IdOf, Matches, Needle, Live, Linked, Compact, Vis;
      Facts();
      LiveAt(pos, key);
      r := None;
      var t := tags[pos];
      if Matches(scheme.layout, t, needle) {
        var entry := entries[IdOf(scheme.layout, t)].value;
        var t2 := tags[pos];
        if t == t2 && Live(t2) && entry.key == key { r := Some((pos, t)); }
      }
    }

    /** Lanes that do not match hold other keys. */
    lemma OtherKeys(cmp: seq<bool>, i: nat, c: nat, k: nat, key: K, needle: bv16)
      requires Valid() && needle == NeedleOf(scheme, key) && len == |queue.items|
      requires |cmp| == LANE && i + LANE <= tags.Length && k <= LANE
      requires forall j | 0 <= j < LANE :: cmp[j] == (ScanBits(scheme.layout, tags[i + j]) == needle)
      requires forall j | c <= j < k :: !cmp[j]
      ensures forall j | i + c <= j < i + k && j < len :: queue.items[j].key != key
    {
      hide IdOf, Needle, Live, Linked, Compact, Vis, ScanBits;
      forall j | i + c <= j < i + k && j < len ensures queue.items[j].key != key {
        LiveAt(j, key);
        assert !cmp[j - i];
      }
    }

    /** Path A's find: scalar in c13s; c14s has a vectorised one too. */
    method FindForPathA(key: K, needle: bv16, hasAvx2: bool) returns (r: Option<(nat, bv16)>)
      requires Valid() && needle == NeedleOf(scheme, key)
      ensures var i := IndexOf(queue.items, key); r == if i < len then Some((i, tags[i])) else None
    {
      hide Valid;
      ValidFacts();
      if !hasAvx2 {
        for pos := 0 to len
          invariant forall j | 0 <= j < pos :: queue.items[j].key != key
        {
          r := TryForPathA(pos, key, needle);
          if r.Some? { return; }
        }
        return None;
      }
      var limit := tags.Length;
      var i := 0;
      while i < limit
        invariant i % LANE == 0 && i <= limit && limit % LANE == 0
        invariant forall j | 0 <= j < i && j < len :: queue.items[j].key != key
      {
        r := FindInChunk(i, key, needle);
        if r.Some? { return; }
        i := i + LANE;
      }
      r := None;
    }

    /**
     Path A, an update in place: claim the slot with EMPTY, replace the value, and put the
     tag back with its VERSION bit flipped. Alone, the first attempt succeeds.
     */
    method TryPathA(key: K, needle: bv16, value: V, hasAvx2: bool) returns (done: bool)
      requires Valid() && needle == NeedleOf(scheme, key)
      modifies this`queue, tags, visited, entries
      ensures Valid() && done == Has(old(queue), key)
      ensures !done ==> queue == old(queue) && tags[..] == old(tags[..])
      ensures done ==> queue == Sieve.Insert(old(queue), entries.Length, key, value).1
      ensures var i := IndexOf(old(queue).items, key);
        done ==> i < len <= tags.Length && tags[..] == old(tags[..])[i := Flip(old(tags[i]))]
    {
      hide IdOf, Matches, Needle, Valid;
      ValidFacts();
      for attempt := 0 to maxRetry
        invariant attempt == 0 && Valid() && queue == old(queue) && tags[..] == old(tags[..])
      {
        var found := FindForPathA(key, needle, hasAvx2);
        if found.None? { return false; }
        var (pos, expected) := found.value;
        if tags[pos] == expected {
          UpdateInPlace(pos, expected, value);
          return true;
        }
      }
      done := false;
    }

    method UpdateInPlace(pos: nat, expected: bv16, value: V)
      requires Valid() && pos < len && tags[pos] == expected
      modifies this`queue, tags, visited, entries
      ensures Valid() && pos < tags.Length && tags[..] == old(tags[..])[pos := Flip(expected)]
      ensures queue == old(queue).(items :=
                         old(queue).items[pos := old(queue).items[pos].(value := value, visited := true)])
    {
      hide IdOf, Matches, Needle, Live, Linked, Vis, Flip;
      Facts();
      ghost var live, items := tags[..len], queue.items;
      LiveAt(pos, items[pos].key);
      SetValue(scheme, live, entries[..], items, pos, value, items[pos].visited);
      FlipLaws(scheme.layout, expected, NeedleOf(scheme, items[pos].key));
      var id := IdOf(scheme.layout, expected);
      tags[pos] := EMPTY;
      var oldEntry := entries[id].value;
      entries[id] := Some(Entry(oldEntry.key, value));
      ghost var items' := items[pos := items[pos].(value := value)];
      Retag(scheme, live, entries[..], items', pos, Flip(expected));
      tags[pos] := Flip(expected);
      assert tags[..len] == live[pos := Flip(expected)];
      SetBit(visited, pos);
      Touch(pos, value);
    }

    /** Path B and C, under the writer lock; also right when the key is present. */
    method PathBC(key: K, value: V, needle: bv16) returns (evicted: Option<(K, V)>)
      requires Valid() && needle == NeedleOf(scheme, key)
      modifies this`len, this`hand, this`queue, tags, visited, entries
      ensures Valid() && (evicted, queue) == Sieve.Insert(old(queue), entries.Length, key, value)
    {
      hide IdOf, Matches, Needle, Valid, Sweep, DeleteAt;
      ValidFacts();
      var found := FindForWriter(key, needle);
      if found.Some? {
        var (pos, expected) := found.value;
        UpdateInPlace(pos, expected, value);
        return None;
      }
      if len < entries.Length {
        WarmupInstall(key, value, needle);
        return None;
      }
      MissesStay(queue, key);
      var e := EvictAndInstall(key, value, needle);
      evicted := Some((e.key, e.value));
    }

    method WarmupInstall(key: K, value: V, needle: bv16)
      requires Valid() && needle == NeedleOf(scheme, key) && len < entries.Length && !Has(queue, key)
      modifies this`len, this`queue, tags, visited, entries
      ensures Valid() && queue == old(queue).(items := old(queue).items + [Item(key, value, false)])
    {
      hide IdOf, Matches, Needle, Linked, Vis, UniqueKeys, NewTag;
      Facts();
      ghost var live, item := tags[..len], Item(key, value, false);
      ArenaIsPrefix(scheme, live, entries[..], queue.items);
      assert entries[..][len].None?;
      NewTagLaws(scheme.layout, len, scheme.hasher(key));
      Append(scheme, live, entries[..], queue.items, len, item);
      FillsGap(scheme.layout, live, NewTag(scheme.layout, len, needle));
      AppendKeepsValid(queue, item);
      entries[len] := Some(Entry(key, value));
      ClearBit(visited, len);
      var newTag := NewTag(scheme.layout, len, needle);
      tags[len] := newTag;
      len := len + 1;
      assert tags[..len] == live + [newTag];
      queue := queue.(items := queue.items + [item]);
      assert Flags(queue.items) == old(Flags(queue.items)) + [false];
      assert Vis(visited[..])[..len] == old(Vis(visited[..])[..len]) + [false];
    }

    // ---- eviction ----

    /** The hand walks `lo..hi`, clearing visited bits, up to the first entry not visited. */
    method ScanEvict(lo: nat, hi: nat, ghost flags: seq<bool>) returns (r: Option<nat>)
      requires Shape() && lo <= hi <= len == |flags| && Vis(visited[..])[..len] == flags
      modifies visited
      ensures var v := FirstUnset(flags, lo, hi);
        r == (if v < hi then Some(v) else None) && Vis(visited[..])[..len] == Clear(flags, lo, v)
    {
      hide Vis;
      assert Clear(flags, lo, lo) == flags;
      for i := lo to hi
        modifies visited
        invariant forall j | lo <= j < i :: flags[j]
        invariant Vis(visited[..])[..len] == Clear(flags, lo, i)
      {
        assert Vis(visited[..])[..len][i] == flags[i];
        var isSet := TestBit(visited, i);
        if isSet {
          ClearBit(visited, i);
          assert Clear(flags, lo, i)[i := false] == Clear(flags, lo, i + 1);
        } else {
          FirstUnsetIs(flags, lo, hi, i);
          return Some(i);
        }
      }
      FirstUnsetIs(flags, lo, hi, hi);
      r := None;
    }

    /** To the end, then up to the hand, else the hand. */
    method EvictPosition(start: nat, ghost flags: seq<bool>) returns (pos: nat)
      requires Shape() && start < len == |flags| && Vis(visited[..])[..len] == flags
      modifies visited
      ensures pos == Sweep(flags, start).0 && Vis(visited[..])[..len] == Sweep(flags, start).1
    {
      hide Vis, Sweep;
      SweepIsTwoPass(flags, start);
      var r := ScanEvict(start, len, flags);
      if r.Some? { return r.value; }
      ghost var upper := Clear(flags, start, len);
      r := ScanEvict(0, start, upper);
      FirstUnsetIs(upper, 0, start, FirstUnset(flags, 0, start));
      if r.Some? { return r.value; }
      assert Clear(upper, 0, start) == Clear(flags, 0, len);
      pos := start;
    }

    /** A sequence whose places from `pos` to `i` have taken the value of the next one. */
    ghost predicate Shifted<T>(now: seq<T>, before: seq<T>, pos: nat, i: nat, n: nat) {
      && |now| == |before| && pos <= i < n <= |before|
      && (forall j | 0 <= j < pos :: now[j] == before[j])
      && (forall j | pos <= j < i :: now[j] == before[j + 1])
      && (forall j | i < j < |now| :: now[j] == before[j])
    }

    lemma ShiftStep<T>(now: seq<T>, before: seq<T>, pos: nat, i: nat, n: nat, junk: T)
      requires Shifted(now, before, pos, i, n) && i + 1 < n
      ensures now[i + 1] == before[i + 1]
      ensures Shifted(now[i := before[i + 1]][i + 1 := junk], before, pos, i + 1, n)
    {
    }

    lemma ShiftEnd<T>(now: seq<T>, before: seq<T>, pos: nat, n: nat)
      requires 0 < n && Shifted(now, before, pos, n - 1, n)
      ensures now[..n - 1] == Without(before[..n], pos)
      ensures forall j | n <= j < |now| :: now[j] == before[j]
    {
    }

    /** Tags and visited bits above `pos` move down one slot at a time, each tag through EMPTY. */
    method ShiftSlots(pos: nat)
      requires Shape() && pos < len
      modifies tags, visited
      ensures tags[..len - 1] == Without(old(tags[..len]), pos)
      ensures Vis(visited[..])[..len - 1] == Without(old(Vis(visited[..])[..len]), pos)
      ensures forall j | len <= j < tags.Length :: tags[j] == old(tags[j])
    {
      hide Vis, Shifted;
      ghost var tags0, vis0 := tags[..], Vis(visited[..]);
      ShiftStart(tags0, pos, len);
      ShiftStart(vis0, pos, len);
      for i := pos to len - 1
        modifies tags, visited
        invariant Shifted(tags[..], tags0, pos, i, len) && Shifted(Vis(visited[..]), vis0, pos, i, len)
      {
        ShiftOne(tags0, vis0, pos, i);
      }
      ShiftEnd(tags[..], tags0, pos, len);
      ShiftEnd(Vis(visited[..]), vis0, pos, len);
    }

    lemma ShiftStart<T>(s: seq<T>, pos: nat, n: nat)
      requires pos < n <= |s|
      ensures Shifted(s, s, pos, pos, n)
    {
    }

    method ShiftOne(ghost tags0: seq<bv16>, ghost vis0: seq<bool>, ghost pos: nat, i: nat)
      requires Shape() && i + 1 < len
      requires Shifted(tags[..], tags0, pos, i, len) && Shifted(Vis(visited[..]), vis0, pos, i, len)
      modifies tags, visited
      ensures Shifted(tags[..], tags0, pos, i + 1, len) && Shifted(Vis(visited[..]), vis0, pos, i + 1, len)
    {
      hide Vis, Shifted;
      ShiftStep(tags[..], tags0, pos, i, len, tags[i + 1]);
      ShiftStep(Vis(visited[..]), vis0, pos, i, len, false);
      var nextTag := tags[i + 1];
      var wasVisited := TestBit(visited, i + 1);
      ClearBit(visited, i + 1);
      if wasVisited {
        SetBit(visited, i);
      } else {
        ClearBit(visited, i);
      }
      tags[i] := EMPTY;
      tags[i] := nextTag;
      assert tags[..] == old(tags[..])[i := nextTag][i + 1 := nextTag];
      assert Vis(visited[..]) == old(Vis(visited[..]))[i := wasVisited][i + 1 := false];
    }

    /** Path C: the victim's entry is read out, the tail shifts down, and its id is reused. */
    method EvictAndInstall(key: K, value: V, needle: bv16) returns (e: Entry<K, V>)
      requires Valid() && needle == NeedleOf(scheme, key) && len == entries.Length && !Has(queue, key)
      modifies this`hand, this`queue, tags, visited, entries
      ensures Valid()
      ensures var (v, swept) := Swept(old(queue)); var rest := DeleteAt(swept, v);
        && e == Entry(old(queue).items[v].key, old(queue).items[v].value)
        && queue == rest.(items := rest.items + [Item(key, value, false)])
    {
      hide IdOf, Matches, Needle, Valid, Sweep, Vis, DeleteAt;
      ValidFacts();
      MissesStay(queue, key);
      ghost var flags, before := Flags(queue.items), queue;
      var pos := SweepFromHand();
      e := Replace(pos, key, value, needle);
    }

    method SweepFromHand() returns (pos: nat)
      requires Valid() && len == entries.Length
      modifies this`hand, this`queue, visited
      ensures Valid()
      ensures var (v, swept) := Swept(old(queue)); pos == v && queue == swept.(hand := old(queue).hand)
    {
      hide IdOf, Matches, Needle, Linked, Sweep, Vis, UniqueKeys, Compact;
      Facts();
      hand := InRange(hand, entries.Length);
      ghost var flags := Flags(queue.items);
      pos := EvictPosition(hand, flags);
      ghost var items' := WithFlags(queue.items, Sweep(flags, hand).1);
      Reflag(scheme, tags[..len], entries[..], queue.items, items');
      assert Flags(items') == Sweep(flags, hand).1;
      SameKeysUnique(queue.items, items');
      queue := queue.(items := items');
    }

    lemma SameKeysUnique(a: seq<Item<K, V>>, b: seq<Item<K, V>>)
      requires UniqueKeys(a) && |a| == |b| && forall i | 0 <= i < |a| :: a[i].key == b[i].key
      ensures UniqueKeys(b)
    {
    }

    method Replace(pos: nat, key: K, value: V, needle: bv16) returns (e: Entry<K, V>)
      requires Valid() && needle == NeedleOf(scheme, key) && pos < len == entries.Length
      requires var rest := DeleteAt(queue.(hand := pos), pos).items; IndexOf(rest, key) == |rest|
      modifies this`hand, this`queue, tags, visited, entries
      ensures Valid()
      ensures var rest := DeleteAt(old(queue).(hand := pos), pos);
        queue == rest.(items := rest.items + [Item(key, value, false)])
      ensures e == Entry(old(queue).items[pos].key, old(queue).items[pos].value)
    {
      hide IdOf, Matches, Needle, Linked, Live, Vis, UniqueKeys, NewTag, Flags, Compact, DeleteAt;
      Facts();
      ghost var live, items, item := tags[..len], queue.items, Item(key, value, false);
      LiveAt(pos, items[pos].key);
      var evictTag := tags[pos];
      var id := IdOf(scheme.layout, evictTag);
      ReplaceLinks(live, entries[..], items, pos, item);
      ReplaceQueue(queue.(hand := pos), pos, item);
      FlagsAfter(items, pos, item);
      e := entries[id].value;
      entries[id] := None;
      ShiftSlots(pos);
      entries[id] := Some(Entry(key, value));
      assert entries[..] == old(entries[..])[id := Some(Entry(key, value))];
      InstallLast(NewTag(scheme.layout, id, needle));
      hand := if pos < entries.Length - 1 then pos else 0;
      ghost var rest := DeleteAt(queue.(hand := pos), pos);
      queue := rest.(items := rest.items + [item]);
      assert Linked(scheme, tags[..len], entries[..], queue.items) && Compact(scheme.layout, tags[..len]);
      assert Vis(visited[..])[..len] == Flags(queue.items) && Sieve.Valid(queue);
      hide Sieve.Valid;
    }

    method InstallLast(newTag: bv16)
      requires Shape() && len == entries.Length
      modifies tags, visited
      ensures tags[..len] == old(tags[..len - 1]) + [newTag]
      ensures Vis(visited[..])[..len] == old(Vis(visited[..])[..len - 1]) + [false]
      ensures forall j | len <= j < tags.Length :: tags[j] == old(tags[j])
    {
      hide Vis;
      var last := entries.Length - 1;
      tags[last] := EMPTY;
      ClearBit(visited, last);
      tags[last] := newTag;
    }

    lemma FlagsAfter(items: seq<Item<K, V>>, pos: nat, item: Item<K, V>)
      requires pos < |items| && !item.visited
      ensures Flags(Without(items, pos) + [item]) == Without(Flags(items), pos) + [false]
    {
    }

    lemma ReplaceQueue(q: Queue<K, V>, pos: nat, item: Item<K, V>)
      requires Sieve.Valid(q) && pos < |q.items|
      requires var rest := DeleteAt(q, pos).items; IndexOf(rest, item.key) == |rest|
      ensures var rest := DeleteAt(q, pos); Sieve.Valid(rest.(items := rest.items + [item]))
      ensures DeleteAt(q, pos).items == Without(q.items, pos)
      ensures q.hand == pos ==> DeleteAt(q, pos).hand == if pos < |q.items| - 1 then pos else 0
    {
      DeleteKeepsValid(q, pos);
      AppendKeepsValid(DeleteAt(q, pos), item);
    }

    /** The links after the victim's slot and id are reused for the new entry. */
    lemma ReplaceLinks(live: seq<bv16>, arena: Arena<K, V>, items: seq<Item<K, V>>, pos: nat, item: Item<K, V>)
      requires Linked(scheme, live, arena, items) && Compact(scheme.layout, live) && pos < |live|
      ensures IdOf(scheme.layout, live[pos]) < |arena| && |arena| <= MAX_PER_SHARD
      ensures var id := IdOf(scheme.layout, live[pos]);
        var tag := NewTag(scheme.layout, id, NeedleOf(scheme, item.key));
        var arena' := arena[id := Some(Entry(item.key, item.value))];
        && Linked(scheme, Without(live, pos) + [tag], arena', Without(items, pos) + [item])
        && Compact(scheme.layout, Without(live, pos) + [tag])
    {
      hide IdOf, Matches, Needle, NewTag;
      Named(scheme, live, arena, items, pos);
      var id := IdOf(scheme.layout, live[pos]);
      ArenaIsPrefix(scheme, live, arena, items);
      Unlink(scheme, live, arena, items, pos);
      NewTagLaws(scheme.layout, id, scheme.hasher(item.key));
      Append(scheme, Without(live, pos), arena[id := None], Without(items, pos), id, item);
      var filled := Some(Entry(item.key, item.value));
      assert arena[id := None][id := filled] == arena[id := filled];
      GapInIds(Ids(scheme.layout, live), Ids(scheme.layout, Without(live, pos)), |live|, id);
      FillsGap(scheme.layout, Without(live, pos), NewTag(scheme.layout, id, NeedleOf(scheme, item.key)));
    }
  }

  /** The retry loop against any succession of scan outcomes, as writers may cause. */
  method BoundedRetry<V>(scan: nat -> (Option<V>, bool)) returns (r: Option<V>, scans: nat)
    ensures scans == Scans(scan, 0) && r == scan(scans - 1).0
  {
    var first := scan(0);
    r, scans := first.0, 1;
    if r.Some? || !first.1 { return; }
    for n := 1 to MAX_READER_RETRY
      invariant scans == n && r.None? && r == scan(n - 1).0
      invariant if n < MAX_READER_RETRY then Scans(scan, 0) == Scans(scan, n) else Scans(scan, 0) == n
    {
      var again := scan(n);
      r, scans := again.0, n + 1;
      if r.Some? || !again.1 { return; }
    }
  }
}

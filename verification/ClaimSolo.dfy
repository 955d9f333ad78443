/**
 c12s in the hands of one thread: any run of calls answers as a ring does that keeps each
 entry where it is, puts a new one in its victim's place, and sends the hand on from there.
 */
module ClaimSolo {
  import opened Tags
  import opened Sieve
  import opened SieveLaws
  import M = Marks
  import opened Claim
  import opened ClaimRuns
  import opened ClaimAlone

  // ---- the ring ----

  type Ring<+W> = Queue<Row<W>, Row<W>>

  /**
   An existing key is updated and marked; otherwise the entry joins at the end, unvisited,
   until the ring is full; then it takes the place of the sweep's victim.
   */
  function RingInsert<K(==), V>(q: Queue<K, V>, capacity: nat, key: K, value: V): (Option<(K, V)>, Queue<K, V>)
    requires Valid(q) && 0 < capacity && |q.items| <= capacity
  {
    var i := IndexOf(q.items, key);
    var newest := Item(key, value, false);
    if i < |q.items| then
      (None, q.(items := q.items[i := q.items[i].(value := value, visited := true)]))
    else if |q.items| < capacity then (None, q.(items := q.items + [newest]))
    else
      var (v, flags) := Sweep(Flags(q.items), q.hand);
      (Some((q.items[v].key, q.items[v].value)),
       Queue(WithFlags(q.items, flags)[v := newest], if v + 1 < capacity then v + 1 else 0))
  }

  /** Where a new entry goes in a full ring: the victim's place; the others stay where they are. */
  ghost predicate Displaced<K, V>(a: Queue<K, V>, b: Queue<K, V>, v: nat, newest: Item<K, V>) {
    var n := |a.items|;
    && M.IsVictim(a, v) && |b.items| == n && b.items[v] == newest
    && (forall j | 0 <= j < n && j != v ::
          var passed := !M.SomeUnvisited(a) || M.Before(a.hand, v, j);
          b.items[j] == if passed then Item(a.items[j].key, a.items[j].value, false) else a.items[j])
    && b.hand == if v + 1 < n then v + 1 else 0
  }

  /** What an insert does to the ring's flags, places and hand. */
  lemma RingPlaces<K, V>(q: Queue<K, V>, capacity: nat, key: K, value: V)
    requires Valid(q) && 0 < capacity && |q.items| <= capacity
    ensures var (out, q') := RingInsert(q, capacity, key, value);
      if Peek(q, key).Some? then out == None && M.SameBut(q, q', key) && M.Holds(q', key, value, true)
      else if |q.items| < capacity then out == None && q' == Queue(q.items + [Item(key, value, false)], q.hand)
      else exists v: nat ::
        Displaced(q, q', v, Item(key, value, false)) && out == Some((q.items[v].key, q.items[v].value))
  {
    if Has(q, key) {
      M.UpdateMarks(q, capacity, key, value);
    } else if |q.items| == capacity {
      var flags := Flags(q.items);
      SweepIsTwoPass(flags, q.hand);
      M.TwoPassVictim(q);
      var v := Sweep(flags, q.hand).0;
      hide Sweep, TwoPass;
      M.TwoPassFlags(q, v);
      assert Displaced(q, RingInsert(q, capacity, key, value).1, v, Item(key, value, false));
    }
  }

  /** An insert into the ring keeps keys unique, and every other key's lookup but the victim's. */
  lemma RingPeek<K, V>(q: Queue<K, V>, capacity: nat, key: K, value: V, x: K)
    requires Valid(q) && 0 < capacity && |q.items| <= capacity
    ensures var (out, q') := RingInsert(q, capacity, key, value);
      && Valid(q') && |q'.items| <= capacity
      && (out.Some? <==> !Has(q, key) && |q.items| == capacity)
      && (out.Some? ==> Peek(q, out.value.0) == Some(out.value.1) && out.value.0 != key)
      && Peek(q', x) ==
         (if x == key then Some(value) else if out.Some? && out.value.0 == x then None else Peek(q, x))
  {
    hide Sweep, Peek;
    var (out, q') := RingInsert(q, capacity, key, value);
    var i := IndexOf(q.items, key);
    if i < |q.items| {
      PlacePeek(q.items, q'.items, i, x);
    } else if |q.items| < capacity {
      AppendPeek(q.items, q.hand, Item(key, value, false), x);
      PeekAnyHand(q.items, q.hand, x);
    } else {
      var (v, flags) := Sweep(Flags(q.items), q.hand);
      PlacePeek(q.items, q'.items, v, x);
      PlacePeek(q.items, q'.items, v, q.items[v].key);
      assert q.items[v].key != key;
    }
    PeekAnyHand(q.items, q.hand, x);
    PeekAnyHand(q'.items, q'.hand, x);
    if out.Some? {
      PeekAnyHand(q.items, q.hand, out.value.0);
      hide IndexOf;
      PeekIs(q.items, Sweep(Flags(q.items), q.hand).0);
    }
  }

  lemma PeekAnyHand<K, V>(items: seq<Item<K, V>>, hand: nat, x: K)
    ensures Peek(Queue(items, hand), x) == Peek(Queue(items, 0), x)
  {
  }

  lemma PeekIs<K, V>(items: seq<Item<K, V>>, i: nat)
    requires UniqueKeys(items) && i < |items|
    ensures Peek(Queue(items, 0), items[i].key) == Some(items[i].value)
  {
    IndexIs(items, i);
  }

  /** One place changes, to its own key or one that was absent. */
  lemma PlacePeek<K, V>(a: seq<Item<K, V>>, b: seq<Item<K, V>>, i: nat, x: K)
    requires UniqueKeys(a) && |a| == |b| && i < |a|
    requires forall j | 0 <= j < |a| && j != i :: b[j].key == a[j].key && b[j].value == a[j].value
    requires forall j | 0 <= j < |a| && j != i :: a[j].key != b[i].key
    ensures UniqueKeys(b)
    ensures Peek(Queue(b, 0), x) ==
            if x == b[i].key then Some(b[i].value) else if x == a[i].key then None else Peek(Queue(a, 0), x)
  {
    IndexIs(b, i);
    var m := IndexOf(a, x);
    if m < |a| && m != i { IndexIs(b, m); }
  }

  // ---- the shard as a ring ----

  function RowOf<W>(item: Item<Row<W>, Row<W>>): Row<W> { item.key + item.value }

  ghost predicate ItemFits<W>(c: Config<W>, item: Item<Row<W>, Row<W>>) {
    |item.key| == c.keyWords && |item.value| == c.valueWords
  }

  /** The slot shows the item. */
  ghost predicate SlotShows<W>(c: Config<W>, p: nat, slot: Slot<W>, item: Item<Row<W>, Row<W>>)
    requires ValidConfig(c) && p < c.cap
  {
    && slot.words == Somes(RowOf(item)) && slot.tag == TagFor(c, p, item.key)
    && slot.visited == item.visited && ItemFits(c, item)
  }

  /** With no call under way the first `len` slots are the ring's items, and the hand is its hand. */
  ghost predicate Shown<W>(c: Config<W>, s: State<W>, q: Ring<W>)
    requires ValidConfig(c)
  {
    && |s.slots| == RoundUp(c.cap) && c.cap <= |s.slots|
    && s.len == |q.items| <= c.cap && s.hand % c.cap == q.hand && Valid(q)
    && (forall p | 0 <= p < |s.slots| :: |s.slots[p].words| == Width(c))
    && (forall p | 0 <= p < s.len :: SlotShows(c, p, s.slots[p], q.items[p]))
    && (forall p | s.len <= p < |s.slots| :: s.slots[p].tag == EMPTY)
  }

  /** What a call answers and leaves, on the ring. */
  ghost function RingStep<W>(c: Config<W>, q: Ring<W>, call: Call<W>): (Result<W>, Ring<W>)
    requires Valid(q) && 0 < c.cap && |q.items| <= c.cap
  {
    match call
    case CallGet(key) => var (value, q') := Get(q, key); (Got(value), q')
    case CallInsert(row) =>
      var (out, q') := RingInsert(q, c.cap, KeyOf(c, row), ValueOf(c, row));
      (Inserted(if out.Some? then Some(out.value.0 + out.value.1) else None), q')
  }

  /** A lookup marks what it finds and moves nothing; an insert does what `RingPlaces` says. */
  lemma RingStepDoes<W>(c: Config<W>, q: Ring<W>, call: Call<W>)
    requires Valid(q) && 0 < c.cap && |q.items| <= c.cap
    ensures var (r, q') := RingStep(c, q, call);
      match call
      case CallGet(key) =>
        && r == Got(Peek(q, key)) && M.SameBut(q, q', key) && (r.value.None? ==> q' == q)
        && (r.value.Some? ==> M.Holds(q', key, r.value.value, true))
      case CallInsert(row) =>
        var (key, value) := (KeyOf(c, row), ValueOf(c, row));
        if Peek(q, key).Some? then r == Inserted(None) && M.SameBut(q, q', key) && M.Holds(q', key, value, true)
        else if |q.items| < c.cap then
          r == Inserted(None) && q' == Queue(q.items + [Item(key, value, false)], q.hand)
        else exists v: nat ::
          Displaced(q, q', v, Item(key, value, false)) && r == Inserted(Some(RowOf(q.items[v])))
  {
    hide RingInsert;
    match call
    case CallGet(key) =>
      M.GetMarks(q, key);
      GetPeek(q, key, key);
    case CallInsert(row) => RingPlaces(q, c.cap, KeyOf(c, row), ValueOf(c, row));
  }

  lemma RowParts<W>(c: Config<W>, item: Item<Row<W>, Row<W>>)
    requires ItemFits(c, item)
    ensures IsEntry(c, RowOf(item)) && KeyOf(c, RowOf(item)) == item.key && ValueOf(c, RowOf(item)) == item.value
  {
  }

  lemma PartsRow<W>(c: Config<W>, row: Row<W>, visited: bool)
    requires IsEntry(c, row)
    ensures var item := Item(KeyOf(c, row), ValueOf(c, row), visited); ItemFits(c, item) && RowOf(item) == row
  {
  }

  lemma ShownAt<W>(c: Config<W>, s: State<W>, q: Ring<W>, p: nat)
    requires ValidConfig(c) && Shown(c, s, q) && p < |s.slots|
    ensures |s.slots[p].words| == Width(c) && s.len == |q.items| <= c.cap <= |s.slots| == RoundUp(c.cap) && Valid(q)
    ensures if p < s.len then SlotShows(c, p, s.slots[p], q.items[p]) else s.slots[p].tag == EMPTY
    ensures s.len == c.cap ==> Full(c, s)
  {
    hide TagFor, RoundUp, KeyOf;
    if s.len == c.cap {
      forall x | 0 <= x < c.cap ensures Live(s.slots[x].tag) { assert SlotShows(c, x, s.slots[x], q.items[x]); }
    }
  }

  // ---- the scan ----

  /** A position that does not have the key is passed. */
  lemma ScanPasses<W>(c: Config<W>, s: State<W>, i: nat, q: Ring<W>, call: Call<W>, p: nat)
    requires ValidConfig(c) && Shown(c, s, q) && i < |s.threads| && p < |s.slots| && Fits(c, call)
    requires p < s.len ==> q.items[p].key != CallKey(c, call)
    ensures Goes(c, Go(s, i, At0(call, p)), i, call, Go(s, i, At0(call, p + 1)))
  {
    hide TagFor, IdOf, Live, Matches, NeedleFor, KeyOf, Goes, Shown, Covers;
    ShownAt(c, s, q, p);
    NoMatchEmpty(c, CallKey(c, call));
    var l0, done := At0(call, p), At0(call, p + 1);
    GoAgain(s, i, l0, done);
    if !Matches(c.scheme.layout, s.slots[p].tag, NeedleFor(c, CallKey(c, call))) {
      assert Step(c, Go(s, i, l0), i, call) == Go(s, i, done);
      GoesOne(c, Go(s, i, l0), i, call);
    } else {
      var l := ReadsSlot(c, s, i, call, p);
      RowParts(c, q.items[p]);
      WholeSomes(RowOf(q.items[p]));
      GoAgain(s, i, l, done);
      assert Step(c, Go(s, i, l), i, call) == Go(s, i, done);
      GoesOne(c, Go(s, i, l), i, call);
      GoesOn(c, Go(s, i, l0), i, call, Go(s, i, l), Go(s, i, done));
    }
  }

  lemma GoAgain<W>(s: State<W>, i: nat, l: Local<W>, l2: Local<W>)
    requires i < |s.threads|
    ensures Go(Go(s, i, l), i, l2) == Go(s, i, l2) && Go(s, i, l).threads[i] == l
  {
    assert s.threads[i := l][i := l2] == s.threads[i := l2];
  }

  /** From a matching tag to the second look, the whole entry read. */
  lemma ReadsSlot<W>(c: Config<W>, s: State<W>, i: nat, call: Call<W>, p: nat) returns (l: Local<W>)
    requires ValidConfig(c) && i < |s.threads| && p < |s.slots| && |s.slots[p].words| == Width(c)
    requires IdOf(c.scheme.layout, s.slots[p].tag) == p
    requires Matches(c.scheme.layout, s.slots[p].tag, NeedleFor(c, CallKey(c, call)))
    ensures l.Scan? && l.look.CheckTag? && l.call == call && l.pos == p
    ensures l.t == s.slots[p].tag && l.got == s.slots[p].words
    ensures Goes(c, Go(s, i, At0(call, p)), i, call, Go(s, i, l))
  {
    hide TagFor, IdOf, Live, Matches, NeedleFor, KeyOf, Goes, Covers, Mid;
    OrderStarts(c);
    var slot, none := s.slots[p], Nones<W>(Width(c));
    var l0, l1 := At0(call, p), Scan(call, ReadWord, p, slot.tag, |slot.pubs|, 0, none);
    l := l1.(look := CheckTag, m := |ReadOrder(c, call)|, got := slot.words);
    GoAgain(s, i, l0, l1);
    assert Step(c, Go(s, i, l0), i, call) == Go(s, i, l1);
    GoesOne(c, Go(s, i, l0), i, call);
    var x := Scene(l1, slot, s.len, s.hand);
    assert SameTo(ReadOrder(c, call), 0, none, slot.words);
    ReadsAll(c, s, i, p, call, x);
    MidGo(s, i, p, x);
    MidGo(s, i, p, x.(l := l));
    GoesOn(c, Go(s, i, l0), i, call, Go(s, i, l1), Go(s, i, l));
  }

  lemma MidGo<W>(s: State<W>, i: nat, p: nat, x: Scene<W>)
    requires i < |s.threads| && p < |s.slots| && x.slot == s.slots[p] && x.len == s.len && x.hand == s.hand
    ensures Mid(s, i, p, x) == Go(s, i, x.l)
  {
    assert s.slots[p := s.slots[p]] == s.slots;
  }

  /** The position that has the key ends the scan. */
  lemma ScanFinds<W>(c: Config<W>, s: State<W>, i: nat, q: Ring<W>, call: Call<W>, p: nat)
    requires ValidConfig(c) && Shown(c, s, q) && i < |s.threads| && p < |q.items| && Fits(c, call)
    requires q.items[p].key == CallKey(c, call)
    ensures p < |s.slots| && Goes(c, Go(s, i, At0(call, p)), i, call, Go(s, i, Found(call, p, q.items[p])))
  {
    hide TagFor, IdOf, Live, Matches, NeedleFor, KeyOf, ValueOf, Goes, Shown, Covers;
    ShownBound(c, s, q);
    ShownAt(c, s, q, p);
    var l := ReadsSlot(c, s, i, call, p);
    RowParts(c, q.items[p]);
    WholeSomes(RowOf(q.items[p]));
    GoAgain(s, i, l, Found(call, p, q.items[p]));
    assert Step(c, Go(s, i, l), i, call) == Go(s, i, Found(call, p, q.items[p]));
    GoesOne(c, Go(s, i, l), i, call);
    GoesOn(c, Go(s, i, At0(call, p)), i, call, Go(s, i, l), Go(s, i, Found(call, p, q.items[p])));
  }

  lemma ShownBound<W>(c: Config<W>, s: State<W>, q: Ring<W>)
    requires ValidConfig(c) && Shown(c, s, q)
    ensures s.len == |q.items| <= c.cap <= |s.slots| && s.hand % c.cap == q.hand && Valid(q)
  {
  }

  ghost function Found<W>(call: Call<W>, p: nat, item: Item<Row<W>, Row<W>>): Local<W> {
    match call
    case CallGet(_) => Touch(false, p, Some(item.value))
    case CallInsert(row) => UpdateLoad(row, p)
  }

  /** Where the scan of a whole shard ends. */
  ghost function Scanned<W>(c: Config<W>, q: Ring<W>, call: Call<W>): Local<W> {
    var p := IndexOf(q.items, CallKey(c, call));
    if p < |q.items| then Found(call, p, q.items[p])
    else match call
         case CallGet(_) => Finished(Got(None))
         case CallInsert(row) => WarmLoad(row)
  }

  lemma {:induction false} Scans<W>(c: Config<W>, s: State<W>, i: nat, q: Ring<W>, call: Call<W>, p: nat)
    requires ValidConfig(c) && Shown(c, s, q) && i < |s.threads| && p <= |s.slots| && Fits(c, call)
    requires forall x | 0 <= x < p && x < |q.items| :: q.items[x].key != CallKey(c, call)
    ensures Goes(c, Go(s, i, At0(call, p)), i, call, Go(s, i, Scanned(c, q, call)))
    decreases |s.slots| - p
  {
    hide Goes, Shown, KeyOf, Matches, NeedleFor, IdOf, Live, IndexOf;
    ShownBound(c, s, q);
    var l, end := At0(call, p), Scanned(c, q, call);
    var m := IndexOf(q.items, CallKey(c, call));
    if p == |s.slots| {
      GoAgain(s, i, l, end);
      assert Step(c, Go(s, i, l), i, call) == Go(s, i, end);
      GoesOne(c, Go(s, i, l), i, call);
    } else if p < |q.items| && q.items[p].key == CallKey(c, call) {
      assert m == p;
      ScanFinds(c, s, i, q, call, p);
    } else {
      ScanPasses(c, s, i, q, call, p);
      Scans(c, s, i, q, call, p + 1);
      GoesOn(c, Go(s, i, l), i, call, Go(s, i, At0(call, p + 1)), Go(s, i, end));
    }
  }

  // ---- after the scan ----

  /** One slot shows another item than before. */
  lemma ShowsNext<W>(c: Config<W>, s: State<W>, i: nat, q: Ring<W>, p: nat, x: Scene<W>, q': Ring<W>)
    requires ValidConfig(c) && Shown(c, s, q) && i < |s.threads| && p < c.cap && p < |q'.items| && p < |s.slots|
    requires |q'.items| == x.len && (x.len == s.len || (x.len == s.len + 1 && p == s.len))
    requires forall m | 0 <= m < |q.items| && m != p :: q'.items[m] == q.items[m]
    requires |x.slot.words| == Width(c) && SlotShows(c, p, x.slot, q'.items[p])
    requires Valid(q') && x.hand % c.cap == q'.hand
    ensures Shown(c, Mid(s, i, p, x), q')
  {
    hide TagFor, KeyOf, RoundUp, Valid;
  }

  /** A hit: the visited bit is set if it was clear. */
  lemma Touches<W>(c: Config<W>, s: State<W>, i: nat, q: Ring<W>, call: Call<W>, p: nat) returns (s': State<W>)
    requires ValidConfig(c) && Shown(c, s, q) && i < |s.threads| && p < |q.items|
    ensures var q' := q.(items := q.items[p := q.items[p].(visited := true)]);
      && Goes(c, Go(s, i, Touch(false, p, Some(q.items[p].value))), i, call, s')
      && s'.threads == s.threads[i := Finished(Got(Some(q.items[p].value)))] && Shown(c, s', q')
  {
    hide TagFor, KeyOf, Goes, Shown, Covers, RoundUp;
    ShownBound(c, s, q);
    ShownAt(c, s, q, p);
    var value, slot := Some(q.items[p].value), s.slots[p];
    var l0, l1, done := Touch(false, p, value), Touch(true, p, value), Finished(Got(value));
    var q' := q.(items := q.items[p := q.items[p].(visited := true)]);
    var x := Scene(done, slot.(visited := true), s.len, s.hand);
    s' := Mid(s, i, p, x);
    ShowsNext(c, s, i, q, p, x, q');
    GoAgain(s, i, l0, l1);
    GoAgain(s, i, l0, done);
    MidSelf(s, i, p);
    if slot.visited {
      assert slot.(visited := true) == slot;
      MidGo(s, i, p, x);
      assert Step(c, Go(s, i, l0), i, call) == Go(s, i, done);
      GoesOne(c, Go(s, i, l0), i, call);
    } else {
      var s1 := Go(s, i, l1);
      assert Step(c, Go(s, i, l0), i, call) == s1;
      assert s1.threads[i := done] == s.threads[i := done];
      assert Step(c, s1, i, call) == s';
      GoesOne(c, Go(s, i, l0), i, call);
      GoesOne(c, s1, i, call);
      GoesOn(c, Go(s, i, l0), i, call, s1, s');
    }
  }

  /** An existing key: its slot is claimed, rewritten and published again. */
  lemma Rewrites<W>(c: Config<W>, s: State<W>, i: nat, q: Ring<W>, row: Row<W>, p: nat) returns (s': State<W>)
    requires ValidConfig(c) && Shown(c, s, q) && i < |s.threads| && p < |q.items| && IsEntry(c, row)
    requires q.items[p].key == KeyOf(c, row)
    ensures var q' := q.(items := q.items[p := Item(KeyOf(c, row), ValueOf(c, row), true)]);
      && Goes(c, Go(s, i, UpdateLoad(row, p)), i, CallInsert(row), s')
      && s'.threads == s.threads[i := Finished(Inserted(None))] && Shown(c, s', q')
  {
    hide TagFor, KeyOf, ValueOf, Goes, Shown, Covers, RoundUp, Matches, NeedleFor, IdOf, Live, Mid;
    ShownBound(c, s, q);
    ShownAt(c, s, q, p);
    var call, slot := CallInsert(row), s.slots[p];
    var x0 := Scene(UpdateLoad(row, p), slot, s.len, s.hand);
    var x1 := x0.(l := UpdateCas(row, p, slot.tag));
    var own := Own(Updating, WriteWord, row, p, slot.tag, 0, []);
    var x2 := x0.(l := own, slot := Claimed(slot, i, ByUpdate, row));
    MidGo(s, i, p, x0);
    MidLaws(s, i, p, x0);
    PlaysOne(c, s, i, p, call, x0, x1);
    MidLaws(s, i, p, x1);
    PlaysOne(c, s, i, p, call, x1, x2);
    PlaysOn(c, s, i, p, call, x0, x1, x2);
    Installs(c, s, i, p, call, x2);
    var x3 := x2.(l := Finished(Inserted(None)), slot := Installed(c, x2.slot, own));
    PlaysOn(c, s, i, p, call, x0, x2, x3);
    s' := Mid(s, i, p, x3);
    PartsRow(c, row, true);
    MidThreads(s, i, p, x3);
    ShowsNext(c, s, i, q, p, x3, q.(items := q.items[p := Item(KeyOf(c, row), ValueOf(c, row), true)]));
  }

  lemma MidThreads<W>(s: State<W>, i: nat, p: nat, x: Scene<W>)
    requires i < |s.threads| && p < |s.slots|
    ensures Mid(s, i, p, x).threads == s.threads[i := x.l]
  {
  }

  /** A new key while there is room. */
  lemma Grows1<W>(c: Config<W>, s: State<W>, i: nat, q: Ring<W>, row: Row<W>) returns (s': State<W>)
    requires ValidConfig(c) && Shown(c, s, q) && i < |s.threads| && IsEntry(c, row) && |q.items| < c.cap
    requires !Has(q, KeyOf(c, row))
    ensures var q' := q.(items := q.items + [Item(KeyOf(c, row), ValueOf(c, row), false)]);
      && Goes(c, Go(s, i, WarmLoad(row)), i, CallInsert(row), s')
      && s'.threads == s.threads[i := Finished(Inserted(None))] && Shown(c, s', q')
  {
    hide TagFor, KeyOf, ValueOf, Goes, Shown, Covers, RoundUp, Mid, Next;
    ShownBound(c, s, q);
    ShownAt(c, s, q, s.len);
    var start, p, newest := Go(s, i, WarmLoad(row)), s.len, Item(KeyOf(c, row), ValueOf(c, row), false);
    PublishesWarm(c, start, i, row, CallInsert(row));
    var x := Scene(Finished(Inserted(None)), Next(c, s.slots[p], p, row, s.slots[p].left), p + 1, s.hand);
    s' := Mid(s, i, p, x);
    MidAfterGo(s, i, p, WarmLoad(row), x);
    MidThreads(s, i, p, x);
    PartsRow(c, row, false);
    NextShows(c, s.slots[p], p, row, s.slots[p].left);
    AppendKeepsValid(q, newest);
    ShowsNext(c, s, i, q, p, x, q.(items := q.items + [newest]));
  }

  lemma MidAfterGo<W>(s: State<W>, i: nat, p: nat, l: Local<W>, x: Scene<W>)
    requires i < |s.threads| && p < |s.slots|
    ensures Mid(Go(s, i, l), i, p, x) == Mid(s, i, p, x)
  {
    assert s.threads[i := l][i := x.l] == s.threads[i := x.l];
  }

  lemma NextShows<W>(c: Config<W>, slot: Slot<W>, p: nat, row: Row<W>, left: seq<Leave<W>>)
    requires ValidConfig(c) && p < c.cap && IsEntry(c, row)
    ensures var b := Next(c, slot, p, row, left);
      |b.words| == Width(c) && SlotShows(c, p, b, Item(KeyOf(c, row), ValueOf(c, row), false))
  {
    hide TagFor;
    PartsRow(c, row, false);
  }

  /** A new key in a full shard: the sweep's victim gives up its slot. */
  lemma Displaces<W>(c: Config<W>, s: State<W>, i: nat, q: Ring<W>, row: Row<W>) returns (s': State<W>)
    requires ValidConfig(c) && Shown(c, s, q) && i < |s.threads| && IsEntry(c, row) && |q.items| == c.cap
    requires !Has(q, KeyOf(c, row))
    ensures var (out, q') := RingInsert(q, c.cap, KeyOf(c, row), ValueOf(c, row));
      && out.Some? && Goes(c, Go(s, i, WarmLoad(row)), i, CallInsert(row), s')
      && s'.threads == s.threads[i := Finished(Inserted(Some(out.value.0 + out.value.1)))] && Shown(c, s', q')
  {
    hide TagFor, KeyOf, ValueOf, Goes, Covers, RoundUp, Mid, Next, Sweep, ClaimsVictim, Alone, Step, VisitedBits;
    ShownBound(c, s, q);
    ShownAt(c, s, q, q.hand);
    var start, call := Go(s, i, WarmLoad(row)), CallInsert(row);
    SendsHand(c, start, i, row, call);
    var s1 := Go(s, i, Hand(row));
    GoAgain(s, i, WarmLoad(row), Hand(row));
    var n := EvictAlone(c, s1, i, call, row);
    var s2 := Alone(c, s1, i, call, n);
    assert Goes(c, s1, i, call, s2) by { GoesBy(c, s1, i, call, n); }
    GoesOn(c, start, i, call, s1, s2);
    RingFlags(c, s, s1, q);
    s' := AfterClaim(c, s1, s2, i, q, row);
    GoesOn(c, start, i, call, s2, s');
    assert s1.threads[i := s'.threads[i]] == s.threads[i := s'.threads[i]];
  }

  lemma GoesBy<W>(c: Config<W>, s: State<W>, i: nat, call: Call<W>, n: nat)
    requires ValidConfig(c) && i < |s.threads| && Unanswered(c, s, i, call, n)
    ensures Goes(c, s, i, call, Alone(c, s, i, call, n))
  {
    hide Alone, Unanswered;
  }

  lemma RingFlags<W>(c: Config<W>, s: State<W>, s1: State<W>, q: Ring<W>)
    requires ValidConfig(c) && Shown(c, s, q) && |q.items| == c.cap && s1 == s.(threads := s1.threads)
    ensures Shown(c, s1, q) && VisitedBits(c, s1) == Flags(q.items)
  {
    hide TagFor;
    forall p | 0 <= p < c.cap ensures VisitedBits(c, s1)[p] == q.items[p].visited {
      assert SlotShows(c, p, s.slots[p], q.items[p]);
    }
  }

  /** The claimed slot is emptied and filled, and the others show the swept ring. */
  lemma AfterClaim<W>(c: Config<W>, s: State<W>, s2: State<W>, i: nat, q: Ring<W>, row: Row<W>) returns (s': State<W>)
    requires ValidConfig(c) && Shown(c, s, q) && i < |s.threads| && IsEntry(c, row) && |q.items| == c.cap <= |s.slots|
    requires !Has(q, KeyOf(c, row)) && ClaimsVictim(c, s, s2, i, row) && VisitedBits(c, s) == Flags(q.items)
    requires s.hand % c.cap == q.hand && i < |s2.threads|
    ensures var (out, q') := RingInsert(q, c.cap, KeyOf(c, row), ValueOf(c, row));
      && out.Some? && Goes(c, s2, i, CallInsert(row), s')
      && s'.threads == s.threads[i := Finished(Inserted(Some(out.value.0 + out.value.1)))] && Shown(c, s', q')
  {
    hide TagFor, KeyOf, ValueOf, Goes, Covers, RoundUp, Next, Sweep, Alone, Step, VisitedBits, IndexOf, Shown;
    var (v, flags) := Sweep(Flags(q.items), q.hand);
    ShownAt(c, s, q, v);
    var slot, out := s.slots[v].(visited := false), Whole(s.slots[v].words);
    var x := Scene(s2.threads[i], s2.slots[v], s2.len, s2.hand);
    MidSelf(s2, i, v);
    Replaces(c, s2, i, v, CallInsert(row), x, slot, row);
    var left := slot.left + [ByEviction(out)];
    var y := x.(l := Finished(Inserted(out)), slot := Next(c, slot, v, row, left));
    s' := Mid(s2, i, v, y);
    WholeSomes(RowOf(q.items[v]));
    SweptShown(c, s, s2, q, v, flags);
    NextShows(c, slot, v, row, left);
    var swept := Queue(WithFlags(q.items, flags), q.hand);
    var q' := RingInsert(q, c.cap, KeyOf(c, row), ValueOf(c, row)).1;
    RingPeek(q, c.cap, KeyOf(c, row), ValueOf(c, row), KeyOf(c, row));
    ShowsAll(c, s2, i, q', v, y, WithFlags(q.items, flags));
    assert s2.threads[i := y.l] == s.threads[i := y.l];
  }

  /** Every slot but the claimed one shows its item with the swept flag. */
  lemma SweptShown<W>(c: Config<W>, s: State<W>, s2: State<W>, q: Ring<W>, v: nat, flags: seq<bool>)
    requires ValidConfig(c) && Shown(c, s, q) && |q.items| == |flags| == c.cap <= |s.slots| == |s2.slots| && v < c.cap
    requires VisitedBits(c, s2) == flags
    requires forall p | 0 <= p < |s.slots| && p != v :: s2.slots[p] == s.slots[p].(visited := s2.slots[p].visited)
    ensures forall p | 0 <= p < c.cap && p != v :: SlotShows(c, p, s2.slots[p], WithFlags(q.items, flags)[p])
    ensures forall p | 0 <= p < |s.slots| && p != v :: |s2.slots[p].words| == Width(c)
    ensures forall p | c.cap <= p < |s.slots| :: s2.slots[p].tag == EMPTY
  {
    hide TagFor, RoundUp, Valid;
    forall p | 0 <= p < c.cap && p != v ensures SlotShows(c, p, s2.slots[p], WithFlags(q.items, flags)[p]) {
      assert SlotShows(c, p, s.slots[p], q.items[p]);
      assert VisitedBits(c, s2)[p] == s2.slots[p].visited;
    }
  }

  lemma ShowsAll<W>(
    c: Config<W>, s2: State<W>, i: nat, q': Ring<W>, v: nat, y: Scene<W>, items: seq<Item<Row<W>, Row<W>>>)
    requires ValidConfig(c) && i < |s2.threads| && |s2.slots| == RoundUp(c.cap) && c.cap <= |s2.slots| && v < c.cap
    requires |items| == |q'.items| == y.len == c.cap && Valid(q') && y.hand % c.cap == q'.hand
    requires forall p | 0 <= p < c.cap && p != v :: q'.items[p] == items[p]
    requires forall p | 0 <= p < c.cap && p != v :: SlotShows(c, p, s2.slots[p], items[p])
    requires forall p | 0 <= p < |s2.slots| && p != v :: |s2.slots[p].words| == Width(c)
    requires forall p | c.cap <= p < |s2.slots| :: s2.slots[p].tag == EMPTY
    requires |y.slot.words| == Width(c) && SlotShows(c, v, y.slot, q'.items[v])
    ensures Shown(c, Mid(s2, i, v, y), q')
  {
    hide TagFor, RoundUp, Valid;
  }

  // ---- calls, one after another ----

  /** One call alone, from its first step to its answer. */
  lemma CallAlone<W>(c: Config<W>, s: State<W>, i: nat, q: Ring<W>, call: Call<W>) returns (s': State<W>)
    requires ValidConfig(c) && Shown(c, s, q) && Fits(c, call) && i < |s.threads| && s.threads[i].Idle?
    requires Valid(q) && |q.items| <= c.cap
    ensures var (r, q') := RingStep(c, q, call);
      && Goes(c, s, i, call, s') && s'.threads == s.threads[i := Finished(r)] && Shown(c, s', q') && |q'.items| <= c.cap
  {
    hide Goes, Shown, KeyOf, ValueOf, Scanned, RingInsert;
    var start, l := Go(s, i, At0(call, 0)), Scanned(c, q, call);
    assert Step(c, s, i, call) == start;
    GoesOne(c, s, i, call);
    Scans(c, s, i, q, call, 0);
    GoesOn(c, s, i, call, start, Go(s, i, l));
    s' := Answers1(c, s, i, q, call);
    GoesOn(c, s, i, call, Go(s, i, l), s');
  }

  /** From the end of the scan to the answer. */
  lemma Answers1<W>(c: Config<W>, s: State<W>, i: nat, q: Ring<W>, call: Call<W>) returns (s': State<W>)
    requires ValidConfig(c) && Shown(c, s, q) && Fits(c, call) && i < |s.threads|
    requires Valid(q) && |q.items| <= c.cap
    ensures var (r, q') := RingStep(c, q, call);
      && Goes(c, Go(s, i, Scanned(c, q, call)), i, call, s')
      && s'.threads == s.threads[i := Finished(r)] && Shown(c, s', q') && |q'.items| <= c.cap
  {
    hide Goes, Shown, KeyOf, ValueOf, IndexOf, Sweep;
    var p := IndexOf(q.items, CallKey(c, call));
    match call
    case CallGet(key) =>
      if p < |q.items| {
        s' := Touches(c, s, i, q, call, p);
      } else {
        s' := Go(s, i, Finished(Got(None)));
        GoesSelf(c, s', i, call);
        ShownGo(c, s, i, q, Finished(Got(None)));
      }
    case CallInsert(row) =>
      if p < |q.items| {
        s' := Rewrites(c, s, i, q, row, p);
      } else if |q.items| < c.cap {
        s' := Grows1(c, s, i, q, row);
      } else {
        s' := Displaces(c, s, i, q, row);
      }
  }

  lemma ShownGo<W>(c: Config<W>, s: State<W>, i: nat, q: Ring<W>, l: Local<W>)
    requires ValidConfig(c) && Shown(c, s, q) && i < |s.threads|
    ensures Shown(c, Go(s, i, l), q)
  {
    hide TagFor, RoundUp, Valid;
  }

  /** The ring after the calls, and what they answer. */
  ghost function RingRun<W>(c: Config<W>, calls: seq<Call<W>>): (r: (seq<Result<W>>, Ring<W>))
    requires 0 < c.cap
    ensures |r.0| == |calls| && Valid(r.1) && |r.1.items| <= c.cap
    decreases |calls|
  {
    if calls == [] then ([], Empty())
    else
      var n := |calls| - 1;
      var (answers, q) := RingRun(c, calls[..n]);
      RingKeeps(c, q, calls[n]);
      var (r, q') := RingStep(c, q, calls[n]);
      (answers + [r], q')
  }

  lemma RingKeeps<W>(c: Config<W>, q: Ring<W>, call: Call<W>)
    requires Valid(q) && 0 < c.cap && |q.items| <= c.cap
    ensures var q' := RingStep(c, q, call).1; Valid(q') && |q'.items| <= c.cap
  {
    hide RingInsert;
    match call
    case CallGet(key) => GetKeepsValid(q, key);
    case CallInsert(row) => RingPeek(q, c.cap, KeyOf(c, row), ValueOf(c, row), KeyOf(c, row));
  }

  /** Thread `i` makes one call in `a`, has its answer `r` in `b`, and is idle again in `s'`. */
  ghost predicate Replies<W>(c: Config<W>, a: State<W>, i: nat, call: Call<W>, r: Result<W>, b: State<W>, s': State<W>)
    requires ValidConfig(c)
  {
    && i < |a.threads| && a.threads[i].Idle? && Goes(c, a, i, call, b)
    && i < |b.threads| && b.threads[i] == Finished(r) && s' == Go(b, i, Idle)
  }

  lemma RepliesSo<W>(c: Config<W>, a: State<W>, i: nat, call: Call<W>, r: Result<W>, b: State<W>)
    requires ValidConfig(c) && i < |a.threads| && a.threads[i].Idle? && Goes(c, a, i, call, b)
    requires i < |b.threads| && b.threads[i] == Finished(r)
    ensures Replies(c, a, i, call, r, b, Go(b, i, Idle))
  {
  }

  lemma OneReply<W>(
    c: Config<W>, a: State<W>, i: nat, call: Call<W>, x: Result<W>, bx: State<W>, sx: State<W>,
    y: Result<W>, bz: State<W>, sy: State<W>)
    requires ValidConfig(c) && Replies(c, a, i, call, x, bx, sx) && Replies(c, a, i, call, y, bz, sy)
    ensures x == y && sx == sy
  {
    hide Goes;
    OneAnswer(c, a, i, call, bx, bz);
  }

  /** From `s` thread `i` makes the calls one by one, alone, gets these answers, and is idle in `s'`. */
  ghost predicate Serves<W(!new)>(
    c: Config<W>, s: State<W>, i: nat, calls: seq<Call<W>>, answers: seq<Result<W>>, s': State<W>)
    requires ValidConfig(c) && i < |s.threads| && |answers| == |calls|
    decreases |calls|
  {
    if calls == [] then s' == s
    else
      var n := |calls| - 1;
      exists a: State<W>, b: State<W> ::
        Serves(c, s, i, calls[..n], answers[..n], a) && Replies(c, a, i, calls[n], answers[n], b, s')
  }

  /** Every run of one thread answers, call by call, as the ring does. */
  lemma {:induction false} RunSolo<W(!new)>(c: Config<W>, threads: nat, i: nat, calls: seq<Call<W>>)
    returns (s': State<W>)
    requires ValidConfig(c) && i < threads && forall m | 0 <= m < |calls| :: Fits(c, calls[m])
    ensures Serves(c, Init(c, threads), i, calls, RingRun(c, calls).0, s')
    ensures |s'.threads| == threads && s'.threads[i].Idle? && Shown(c, s', RingRun(c, calls).1)
    decreases |calls|
  {
    hide Shown, Goes, RingStep, Replies;
    var start: State<W> := Init(c, threads);
    if calls == [] {
      s' := start;
      StartShown<W>(c, threads);
    } else {
      var n := |calls| - 1;
      var a := RunSolo(c, threads, i, calls[..n]);
      var (answers, q) := RingRun(c, calls[..n]);
      var b := CallAlone(c, a, i, q, calls[n]);
      var (r, q') := RingStep(c, q, calls[n]);
      s' := Go(b, i, Idle);
      ShownGo(c, b, i, q', Idle);
      RepliesSo(c, a, i, calls[n], r, b);
      var all := RingRun(c, calls).0;
      assert all == answers + [r] && all[..n] == answers && all[n] == r;
      assert Serves(c, start, i, calls[..n], all[..n], a);
    }
  }

  lemma StartShown<W>(c: Config<W>, threads: nat)
    requires ValidConfig(c)
    ensures Shown<W>(c, Init(c, threads), Empty())
  {
    hide TagFor;
  }

  /** The answers of a run are determined. */
  lemma {:induction false} SameAnswers<W(!new)>(
    c: Config<W>, s: State<W>, i: nat, calls: seq<Call<W>>,
    xs: seq<Result<W>>, a: State<W>, ys: seq<Result<W>>, b: State<W>)
    requires ValidConfig(c) && i < |s.threads| && |xs| == |calls| == |ys|
    requires Serves(c, s, i, calls, xs, a) && Serves(c, s, i, calls, ys, b)
    ensures xs == ys && a == b
    decreases |calls|
  {
    hide Replies;
    if calls != [] {
      var n := |calls| - 1;
      var a0: State<W>, a1: State<W> :|
        Serves(c, s, i, calls[..n], xs[..n], a0) && Replies(c, a0, i, calls[n], xs[n], a1, a);
      var b0: State<W>, b1: State<W> :|
        Serves(c, s, i, calls[..n], ys[..n], b0) && Replies(c, b0, i, calls[n], ys[n], b1, b);
      SameAnswers(c, s, i, calls[..n], xs[..n], a0, ys[..n], b0);
      OneReply(c, a0, i, calls[n], xs[n], a1, a, ys[n], b1, b);
      assert xs == xs[..n] + [xs[n]] && ys == ys[..n] + [ys[n]];
    }
  }
}

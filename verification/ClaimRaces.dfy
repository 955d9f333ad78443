/**
 What c12s does not promise, and exactly when, for every capacity, every number of words
 and every order in which they move. A lookup is about to return an entry never published
 in its slot, in some run, exactly when its words can be gathered from other entries that
 are inserted, one of them with the needle of the key; and an update is about to
 overwrite another key's entry exactly when two keys of one needle are inserted.
 */
module ClaimRaces {
  import opened Tags
  import opened Sieve
  import opened Claim
  import opened ClaimRuns
  import opened ClaimUse
  import opened ClaimAlone
  import opened ClaimStaging

  // ---- a torn read ----

  /** A lookup is about to return an entry that was never published in the slot it read. */
  ghost predicate Tears<W>(c: Config<W>, s: State<W>, i: nat, row: Row<W>) {
    && Validates(s, i) && s.threads[i].call == CallGet(KeyOf(c, row)) && s.threads[i].got == Somes(row)
    && row !in At(s, s.threads[i].pos).pubs
  }

  /** Some run of these calls comes to a lookup about to return `row`, never published there. */
  ghost predicate CanTear<W(!new)>(c: Config<W>, calls: iset<Call<W>>, row: Row<W>)
    requires ValidConfig(c)
  {
    exists threads, s: State<W>, i :: ReachableBy(c, calls, threads, s) && Tears(c, s, i, row)
  }

  /** `x` is inserted, and is another entry than `row`. */
  ghost predicate Other<W(!new)>(c: Config<W>, calls: iset<Call<W>>, row: Row<W>, x: Row<W>) {
    IsEntry(c, x) && x != row && CallInsert(x) in calls
  }

  /** Another inserted entry has the needle of `row`'s key. */
  ghost predicate Posed<W(!new)>(c: Config<W>, calls: iset<Call<W>>, row: Row<W>)
    requires ValidConfig(c)
  {
    exists x :: Other(c, calls, row, x) && NeedleFor(c, KeyOf(c, x)) == NeedleFor(c, KeyOf(c, row))
  }

  ghost predicate HasWord<W>(x: Row<W>, row: Row<W>, j: nat) {
    j < |row| && j < |x| && x[j] == row[j]
  }

  /** Another inserted entry has word `j` of `row`. */
  ghost predicate Lends<W(!new)>(c: Config<W>, calls: iset<Call<W>>, row: Row<W>, j: nat) {
    exists x :: Other(c, calls, row, x) && HasWord(x, row, j)
  }

  /** The key is looked up, and the entry can be put together from others that are inserted. */
  ghost predicate Gathers<W(!new)>(c: Config<W>, calls: iset<Call<W>>, row: Row<W>)
    requires ValidConfig(c)
  {
    && CallGet(KeyOf(c, row)) in calls && Posed(c, calls, row)
    && forall j: nat | j < Width(c) :: Lends(c, calls, row, j)
  }

  /** The reader of slot `0` with `m` words read. */
  ghost function Reader<W>(c: Config<W>, call: Call<W>, t: bv16, m: nat, got: seq<Option<W>>): Local<W> {
    Scan(call, if m < |ReadOrder(c, call)| then ReadWord else CheckTag, 0, t, 1, m, got)
  }

  /** The last thread starts `call` and finds the tag of slot `0` to its liking. */
  lemma Looks<W(!new)>(
    c: Config<W>, calls: iset<Call<W>>, s: State<W>, from: nat, ws: seq<Row<W>>, call: Call<W>, x: Row<W>)
    returns (s': State<W>)
    requires ValidConfig(c) && Staged(c, s, from, ws, Idle) && call in calls && Fits(c, call)
    requires SlotIs(c, s, 0, [x]) && NeedleFor(c, CallKey(c, call)) == NeedleFor(c, KeyOf(c, x))
    ensures Reaches(c, calls, s, s')
    ensures s' == Go(s, |s.threads| - 1, Reader(c, call, TagFor(c, 0, KeyOf(c, x)), 0, Nones(Width(c))))
    ensures Staged(c, s', from, ws, Reader(c, call, TagFor(c, 0, KeyOf(c, x)), 0, Nones(Width(c))))
  {
    hide TagFor, Reaches, Goes, Matches, NeedleFor, IdOf, Live, KeyOf, Fresh, Waiting;
    OrderStarts(c);
    var i := |s.threads| - 1;
    var l1, l2 := At0(call, 0), Reader(c, call, TagFor(c, 0, KeyOf(c, x)), 0, Nones(Width(c)));
    var s1, s2 := Go(s, i, l1), Go(s, i, l2);
    assert s1.threads[i := l2] == s2.threads;
    GoesOne(c, s, i, call);
    GoesOne(c, s1, i, call);
    GoesOn(c, s, i, call, s1, s2);
    s' := Moves1(c, calls, s, from, ws, Idle, call, l2);
  }

  lemma NothingRead<W>(order: seq<nat>, got: seq<Option<W>>, words: seq<Option<W>>)
    requires |got| == |words|
    ensures SameTo(order, 0, got, words)
  {
  }

  /** One more word of slot `0`. */
  lemma ReadsNext<W>(
    c: Config<W>, s: State<W>, i: nat, call: Call<W>, t: bv16, m: nat, got: seq<Option<W>>, row: Row<W>, x: Row<W>)
    requires ValidConfig(c) && i < |s.threads| && s.threads[i] == Reader(c, call, t, m, got)
    requires |row| == |x| == Width(c) && At(s, 0).words == Somes(x) && IdOf(c.scheme.layout, t) == 0
    requires m < |ReadOrder(c, call)| && SameTo(ReadOrder(c, call), m, got, Somes(row))
    requires var j := ReadOrder(c, call)[m]; j < Width(c) && x[j] == row[j]
    ensures var got' := WithWord(got, ReadOrder(c, call)[m], At(s, 0).words[ReadOrder(c, call)[m]]);
      Step(c, s, i, call) == Go(s, i, Reader(c, call, t, m + 1, got')) && !s.threads[i].Finished? &&
      SameTo(ReadOrder(c, call), m + 1, got', Somes(row))
  {
    hide IdOf, SameTo, Covers;
    SameOne(ReadOrder(c, call), m, got, Somes(row));
  }

  /** The entries have, one after the other, the words of `row` from place `m` of the order on. */
  ghost predicate Supplies<W>(order: seq<nat>, m: nat, xs: seq<Row<W>>, row: Row<W>) {
    m + |xs| == |order| && forall y | 0 <= y < |xs| :: HasWord(xs[y], row, order[m + y])
  }

  lemma SuppliesNext<W>(order: seq<nat>, m: nat, xs: seq<Row<W>>, row: Row<W>)
    requires Supplies(order, m, xs, row) && xs != []
    ensures m < |order| && HasWord(xs[0], row, order[m]) && Supplies(order, m + 1, xs[1..], row)
  {
    assert HasWord(xs[0], row, order[m + 0]);
    forall y | 0 <= y < |xs| - 1 ensures HasWord(xs[1..][y], row, order[m + 1 + y]) {
      assert HasWord(xs[y + 1], row, order[m + (y + 1)]);
    }
  }

  /** For each word still to read, a round that publishes an entry having it. */
  lemma {:induction false} ReadsOn<W(!new)>(
    c: Config<W>, calls: iset<Call<W>>, s: State<W>, from: nat, xs: seq<Row<W>>, tail: seq<Row<W>>,
    call: Call<W>, t: bv16, m: nat, got: seq<Option<W>>, row: Row<W>, pubs: seq<Row<W>>)
    returns (s': State<W>, from': nat)
    requires ValidConfig(c) && call in calls && Fits(c, call) && IsEntry(c, row) && IdOf(c.scheme.layout, t) == 0
    requires Staged(c, s, from, Rounds(xs, c.cap) + tail, Reader(c, call, t, m, got))
    requires Planned(c, Rounds(xs, c.cap) + tail, calls) && Planned(c, xs, calls)
    requires s.len == c.cap && HandAt(c, s, 0) && SlotIs(c, s, 0, pubs)
    requires m + |xs| == |ReadOrder(c, call)| && SameTo(ReadOrder(c, call), m, got, Somes(row))
    requires Supplies(ReadOrder(c, call), m, xs, row)
    ensures Reaches(c, calls, s, s') && |s'.threads| == |s.threads|
    ensures Staged(c, s', from', tail, Reader(c, call, t, |ReadOrder(c, call)|, Somes(row)))
    ensures s'.len == c.cap && HandAt(c, s', 0) && SlotIs(c, s', 0, pubs + xs)
    decreases |xs|
  {
    hide Reaches, Staged, SlotIs, Planned, HandAt, IdOf, Goes, Covers, SameTo, Reader, Rounds, Supplies;
    var order := ReadOrder(c, call);
    if xs == [] {
      s', from' := s, from;
      ReachesSelf(c, calls, s);
      assert pubs + xs == pubs;
      OrdersCover(c, call);
      SameAll(order, got, Somes(row));
      NoRounds<W>(c.cap, tail);
    } else {
      PlannedAt(c, xs, calls);
      FirstRound(xs, c.cap);
      var ws := Rounds(xs, c.cap) + tail;
      assert ws[0] == xs[0] && ws[c.cap..] == Rounds(xs[1..], c.cap) + tail;
      var s1 := Round(c, calls, s, from, ws, Reader(c, call, t, m, got));
      PlannedAt(c, ws, calls);
      SlotShows(c, s, s1, pubs, xs[0]);
      StagedAt(c, s1, from + c.cap, ws[c.cap..], Reader(c, call, t, m, got), 0);
      var i := |s1.threads| - 1;
      SuppliesNext(order, m, xs, row);
      ReadsNext(c, s1, i, call, t, m, got, row, xs[0]);
      GoesOne(c, s1, i, call);
      var got' := WithWord(got, order[m], At(s1, 0).words[order[m]]);
      var l, l' := Reader(c, call, t, m, got), Reader(c, call, t, m + 1, got');
      var s2 := Moves1(c, calls, s1, from + c.cap, ws[c.cap..], l, call, l');
      ReachesTwice(c, calls, s, s1, s2);
      SlotGone(c, s1, i, Reader(c, call, t, m + 1, got'), pubs + [xs[0]]);
      s', from' := ReadsOn(c, calls, s2, from + c.cap, xs[1..], tail, call, t, m + 1, got', row, pubs + [xs[0]]);
      ReachesTwice(c, calls, s, s2, s');
      assert pubs + [xs[0]] + xs[1..] == pubs + xs;
    }
  }

  lemma NoRounds<W>(cap: nat, tail: seq<Row<W>>)
    ensures Rounds<W>([], cap) + tail == tail
  {
  }

  lemma SlotShows<W>(c: Config<W>, s: State<W>, s1: State<W>, pubs: seq<Row<W>>, x: Row<W>)
    requires ValidConfig(c) && SlotIs(c, s, 0, pubs) && SlotIs(c, s1, 0, s.slots[0].pubs + [x])
    ensures SlotIs(c, s1, 0, pubs + [x]) && At(s1, 0).words == Somes(x)
  {
    hide TagFor, KeyOf;
  }

  lemma SlotGone<W>(c: Config<W>, s: State<W>, i: nat, l: Local<W>, pubs: seq<Row<W>>)
    requires ValidConfig(c) && i < |s.threads| && SlotIs(c, s, 0, pubs)
    ensures var g := Go(s, i, l);
      SlotIs(c, g, 0, pubs) && g.len == s.len && g.hand == s.hand && (HandAt(c, s, 0) ==> HandAt(c, g, 0))
  {
    hide TagFor, KeyOf;
  }

  /** The entries to publish while the words are read in order, each having the next word. */
  lemma {:induction false} Lenders<W(!new)>(c: Config<W>, calls: iset<Call<W>>, row: Row<W>, order: seq<nat>)
    returns (xs: seq<Row<W>>)
    requires ValidConfig(c) && forall m | 0 <= m < |order| :: Lends(c, calls, row, order[m])
    ensures Planned(c, xs, calls) && row !in xs && Supplies(order, 0, xs, row)
  {
    if order == [] {
      xs := [];
    } else {
      assert Lends(c, calls, row, order[0]);
      var x :| Other(c, calls, row, x) && HasWord(x, row, order[0]);
      var rest := Lenders(c, calls, row, order[1..]);
      xs := [x] + rest;
      forall y | 0 <= y < |xs| ensures HasWord(xs[y], row, order[0 + y]) {
        if y > 0 { assert HasWord(rest[y - 1], row, order[1..][0 + (y - 1)]); }
      }
    }
  }

  /** A full shard showing `x` in slot `0`, and the last thread in its lookup with that tag. */
  lemma StartsLookup<W(!new)>(c: Config<W>, calls: iset<Call<W>>, ws: seq<Row<W>>, call: Call<W>)
    returns (s: State<W>)
    requires ValidConfig(c) && Planned(c, ws, calls) && c.cap <= |ws| && call in calls && Fits(c, call)
    requires NeedleFor(c, CallKey(c, call)) == NeedleFor(c, KeyOf(c, ws[0]))
    ensures ReachableBy(c, calls, |ws| + 1, s) && |s.threads| == |ws| + 1
    ensures Staged(c, s, c.cap, ws[c.cap..], Reader(c, call, TagFor(c, 0, KeyOf(c, ws[0])), 0, Nones(Width(c))))
    ensures s.len == c.cap && HandAt(c, s, 0) && SlotIs(c, s, 0, [ws[0]])
  {
    hide Reaches, Staged, SlotIs, HandAt, NeedleFor, TagFor, KeyOf, Planned;
    var s0 := SetsStage(c, calls, ws);
    s := Looks(c, calls, s0, c.cap, ws[c.cap..], call, ws[0]);
    ReachesTwice(c, calls, Init(c, |ws| + 1), s0, s);
    SlotGone(c, s0, |ws|, Reader(c, call, TagFor(c, 0, KeyOf(c, ws[0])), 0, Nones(Width(c))), [ws[0]]);
  }

  /**
   For every capacity: a lookup finds the tag of another entry, reads each word from an
   entry that has it, the slot being replaced before each one, and the first entry is
   published again before it looks at the tag.
   */
  lemma TornReadValidates<W(!new)>(c: Config<W>, calls: iset<Call<W>>, row: Row<W>)
    returns (threads: nat, s: State<W>, i: nat)
    requires ValidConfig(c) && IsEntry(c, row) && Gathers(c, calls, row)
    ensures ReachableBy(c, calls, threads, s) && Tears(c, s, i, row)
    ensures Step(c, s, i, CallGet(KeyOf(c, row))).threads[i] == Touch(false, 0, Some(ValueOf(c, row)))
  {
    hide Reaches, Staged, SlotIs, HandAt, IdOf, Covers, NeedleFor, TagFor, Rounds, Live, Supplies, Tears, Step, Reader;
    hide Planned, KeyOf;
    var call: Call<W> := CallGet(KeyOf(c, row));
    var x :| Other(c, calls, row, x) && NeedleFor(c, KeyOf(c, x)) == NeedleFor(c, KeyOf(c, row));
    var order := c.orders.get;
    OrdersCover(c, call);
    forall m | 0 <= m < |order| ensures Lends(c, calls, row, order[m]) { OrderWithin(c, order, m); }
    var xs := Lenders(c, calls, row, order);
    KeyFits(c, row);
    var round := Rounds([x], c.cap);
    var rest := Rounds(xs, c.cap) + round;
    var ws := round + rest;
    OnePlanned(c, x, calls);
    PlansOn(c, [x], xs, calls);
    OneRound(x, c.cap);
    assert ws[c.cap..] == rest && ws[0] == x;
    var s1 := StartsLookup(c, calls, ws, call);
    var t, none := TagFor(c, 0, KeyOf(c, x)), Nones<W>(Width(c));
    NothingRead(order, none, Somes(row));
    SuppliesAll(order, xs, row);
    var s2, from := ReadsOn(c, calls, s1, c.cap, xs, round, call, t, 0, none, row, [x]);
    ReachesTwice(c, calls, Init(c, |ws| + 1), s1, s2);
    var last := Reader(c, call, t, |order|, Somes(row));
    s := Round(c, calls, s2, from, round, last);
    ReachesTwice(c, calls, Init(c, |ws| + 1), s2, s);
    SlotShows(c, s2, s, [x] + xs, x);
    StagedAt(c, s, from + c.cap, round[c.cap..], last, 0);
    threads, i := |ws| + 1, |ws|;
    TearsHere(c, s, i, row, [x] + xs, x);
  }

  lemma KeyFits<W>(c: Config<W>, row: Row<W>)
    requires IsEntry(c, row)
    ensures |KeyOf(c, row)| == c.keyWords
  {
  }

  lemma OnePlanned<W(!new)>(c: Config<W>, x: Row<W>, calls: iset<Call<W>>)
    requires IsEntry(c, x) && CallInsert(x) in calls
    ensures Planned(c, [x], calls)
  {
  }

  lemma SuppliesAll<W>(order: seq<nat>, xs: seq<Row<W>>, row: Row<W>)
    requires Supplies(order, 0, xs, row)
    ensures |xs| == |order|
  {
  }

  lemma PlansOn<W(!new)>(c: Config<W>, a: seq<Row<W>>, xs: seq<Row<W>>, calls: iset<Call<W>>)
    requires Planned(c, a, calls) && Planned(c, xs, calls)
    ensures Planned(c, Rounds(a, c.cap) + (Rounds(xs, c.cap) + Rounds(a, c.cap)), calls)
    ensures Planned(c, Rounds(xs, c.cap) + Rounds(a, c.cap), calls) && Planned(c, Rounds(a, c.cap), calls)
  {
    hide Rounds;
    RoundsPlanned(c, a, calls);
    RoundsPlanned(c, xs, calls);
  }

  lemma TearsHere<W>(c: Config<W>, s: State<W>, i: nat, row: Row<W>, pubs: seq<Row<W>>, x: Row<W>)
    requires ValidConfig(c) && i < |s.threads| && SlotIs(c, s, 0, pubs + [x]) && row !in pubs && row != x
    requires s.threads[i] == Reader(c, CallGet(KeyOf(c, row)), TagFor(c, 0, KeyOf(c, x)), |c.orders.get|, Somes(row))
    ensures Tears(c, s, i, row)
    ensures Step(c, s, i, CallGet(KeyOf(c, row))).threads[i] == Touch(false, 0, Some(ValueOf(c, row)))
  {
    hide TagFor, KeyOf, ValueOf, Live, Matches, NeedleFor;
    WholeSomes(row);
  }

  /** For every entry: a lookup can return it, never having met it, exactly when it can be gathered. */
  lemma TornIff<W(!new)>(c: Config<W>, calls: iset<Call<W>>, row: Row<W>)
    requires ValidConfig(c) && IsEntry(c, row)
    ensures CanTear(c, calls, row) <==> Gathers(c, calls, row)
  {
    hide ReachableBy, Tears, Gathers, Step;
    if Gathers(c, calls, row) {
      var threads, s, i := TornReadValidates(c, calls, row);
    }
    if CanTear(c, calls, row) {
      var threads: nat, s: State<W>, i: nat :| ReachableBy(c, calls, threads, s) && Tears(c, s, i, row);
      TornGathers(c, calls, threads, s, i, row);
    }
  }

  lemma TornGathers<W(!new)>(c: Config<W>, calls: iset<Call<W>>, threads: nat, s: State<W>, i: nat, row: Row<W>)
    requires ValidConfig(c) && IsEntry(c, row) && ReachableBy(c, calls, threads, s) && Tears(c, s, i, row)
    ensures Gathers(c, calls, row)
  {
    hide Reaches, Live, ReachableBy, NeedleFor, KeyOf;
    ReachableByIsReachable(c, calls, threads, s);
    ReachableInUse(c, calls, threads, s);
    ValidatedWords(c, threads, s, i);
    var l := s.threads[i];
    var pubs := At(s, l.pos).pubs;
    ThreadInUse(s, calls, i, l.pos);
    if l.pos < |s.slots| { PublishedIn(At(s, l.pos), calls); }
    assert Other(c, calls, row, pubs[l.n - 1]);
    forall j: nat | j < Width(c) ensures Lends(c, calls, row, j) {
      var a :| l.n - 1 <= a < |pubs| && l.got[j] == Some(pubs[a][j]);
      assert Other(c, calls, row, pubs[a]);
    }
  }

  // ---- what that comes to for small keys and values ----

  /** A key is looked up that is inserted, while another key is inserted with another value. */
  ghost predicate Mixes<W(!new)>(calls: iset<Call<W>>) {
    exists k1: W, v1: W, k2: W, v2: W :: k1 != k2 && v1 != v2
      && CallGet([k1]) in calls && CallInsert([k1, v1]) in calls && CallInsert([k2, v2]) in calls
  }

  /** Keys and values of one word each: some lookup can be torn exactly when the calls mix. */
  lemma OneWordEach<W(!new)>(c: Config<W>, calls: iset<Call<W>>)
    requires ValidConfig(c) && c.keyWords == 1 && c.valueWords == 1
    ensures (exists row :: IsEntry(c, row) && CanTear(c, calls, row)) <==> Mixes(calls)
  {
    hide CanTear, NeedleFor;
    if Mixes(calls) {
      var k1, v1, k2, v2 :| k1 != k2 && v1 != v2
        && CallGet([k1]) in calls && CallInsert([k1, v1]) in calls && CallInsert([k2, v2]) in calls;
      var row := [k1, v2];
      assert Other(c, calls, row, [k1, v1]) && Other(c, calls, row, [k2, v2]);
      assert KeyOf(c, row) == [k1] == KeyOf(c, [k1, v1]);
      forall j: nat | j < 2 ensures Lends(c, calls, row, j) {
        assert HasWord(if j == 0 then [k1, v1] else [k2, v2], row, j);
      }
      TornIff(c, calls, row);
    }
    if row :| IsEntry(c, row) && CanTear(c, calls, row) {
      TornIff(c, calls, row);
      assert KeyOf(c, row) == [row[0]];
      assert Lends(c, calls, row, 0) && Lends(c, calls, row, 1);
      var x :| Other(c, calls, row, x) && HasWord(x, row, 0);
      var y :| Other(c, calls, row, y) && HasWord(y, row, 1);
      assert x == [row[0], x[1]] && y == [y[0], row[1]] && row == [row[0], row[1]];
    }
  }

  /**
   Values of two words or more: one key with two values that differ in two words is
   enough, updates in place included; a lookup can return a value that is neither.
   */
  lemma WideValueTears<W(!new)>(c: Config<W>, calls: iset<Call<W>>, x: Row<W>, y: Row<W>, a: nat, b: nat)
    requires ValidConfig(c) && IsEntry(c, x) && IsEntry(c, y) && KeyOf(c, x) == KeyOf(c, y)
    requires c.keyWords <= a < Width(c) && c.keyWords <= b < Width(c) && a != b && x[a] != y[a] && x[b] != y[b]
    requires CallGet(KeyOf(c, x)) in calls && CallInsert(x) in calls && CallInsert(y) in calls
    ensures CanTear(c, calls, x[a := y[a]]) && x[a := y[a]] != x && x[a := y[a]] != y
  {
    hide CanTear, NeedleFor;
    var row := x[a := y[a]];
    assert KeyOf(c, row) == KeyOf(c, x);
    assert row[b] != y[b] && row[a] != x[a];
    assert Other(c, calls, row, x) && Other(c, calls, row, y);
    forall j: nat | j < Width(c) ensures Lends(c, calls, row, j) {
      assert HasWord(if j == a then y else x, row, j);
    }
    TornIff(c, calls, row);
  }

  // ---- an update of another key's entry ----

  /** The update's next compare-and-swap will take an entry of another key. */
  ghost predicate Overwrites<W>(c: Config<W>, s: State<W>, i: nat) {
    && i < |s.threads| && s.threads[i].UpdateCas?
    && var slot := At(s, s.threads[i].pos);
       slot.tag == s.threads[i].t && slot.pubs != [] && HoldsLast(slot)
       && KeyOf(c, slot.pubs[|slot.pubs| - 1]) != KeyOf(c, s.threads[i].row)
  }

  /** An insert of `y` finds `x` of the same key in slot `0`. */
  lemma FindsForUpdate<W(!new)>(
    c: Config<W>, calls: iset<Call<W>>, s: State<W>, from: nat, ws: seq<Row<W>>, x: Row<W>, y: Row<W>)
    returns (s': State<W>)
    requires ValidConfig(c) && Staged(c, s, from, ws, Idle) && CallInsert(y) in calls
    requires IsEntry(c, x) && IsEntry(c, y) && KeyOf(c, x) == KeyOf(c, y) && SlotIs(c, s, 0, [x])
    ensures Reaches(c, calls, s, s') && Staged(c, s', from, ws, UpdateLoad(y, 0))
    ensures s' == Go(s, |s.threads| - 1, UpdateLoad(y, 0))
  {
    hide Reaches, Staged, SlotIs, TagFor, IdOf, Live, Matches, NeedleFor, Covers, KeyOf, Goes, SameTo, Mid;
    StagedAt(c, s, from, ws, Idle, 0);
    var call, i := CallInsert(y), |s.threads| - 1;
    var s1 := Looks(c, calls, s, from, ws, call, x);
    var t := TagFor(c, 0, KeyOf(c, x));
    var none := Nones<W>(Width(c));
    var l0 := Reader(c, call, t, 0, none);
    SlotWords(c, s, x);
    OrderStarts(c);
    var a := Scene(l0, s.slots[0], s.len, s.hand);
    MidIsGo(s, i, l0);
    NothingRead(ReadOrder(c, call), none, a.slot.words);
    ReadsAll(c, s1, i, 0, call, a);
    var l1 := l0.(look := CheckTag, m := |ReadOrder(c, call)|, got := a.slot.words);
    MidAgain(s, i, l0, a);
    MidAgain(s, i, l0, a.(l := l1));
    var s2 := Go(s, i, l1);
    ReadsThenUpdates(c, s, i, x, y, l1);
    GoesOne(c, s2, i, call);
    GoesOn(c, s1, i, call, s2, Go(s, i, UpdateLoad(y, 0)));
    assert Go(s1, i, UpdateLoad(y, 0)) == Go(s, i, UpdateLoad(y, 0)) by { GoAgain(s, i, l0, UpdateLoad(y, 0)); }
    s' := Moves1(c, calls, s1, from, ws, l0, call, UpdateLoad(y, 0));
    ReachesTwice(c, calls, s, s1, s');
  }

  lemma GoAgain<W>(s: State<W>, i: nat, l: Local<W>, l2: Local<W>)
    requires i < |s.threads|
    ensures Go(Go(s, i, l), i, l2) == Go(s, i, l2)
  {
    assert s.threads[i := l][i := l2] == s.threads[i := l2];
  }

  lemma MidIsGo<W>(s: State<W>, i: nat, l: Local<W>)
    requires i < |s.threads| && 0 < |s.slots|
    ensures Mid(s, i, 0, Scene(l, s.slots[0], s.len, s.hand)) == Go(s, i, l)
  {
    assert s.slots[0 := s.slots[0]] == s.slots;
  }

  lemma MidAgain<W>(s: State<W>, i: nat, l: Local<W>, x: Scene<W>)
    requires i < |s.threads| && 0 < |s.slots| && x.slot == s.slots[0] && x.len == s.len && x.hand == s.hand
    ensures Mid(Go(s, i, l), i, 0, x) == Go(s, i, x.l)
  {
    GoAgain(s, i, l, x.l);
    assert s.slots[0 := s.slots[0]] == s.slots;
  }

  lemma SlotWords<W>(c: Config<W>, s: State<W>, x: Row<W>)
    requires ValidConfig(c) && SlotIs(c, s, 0, [x])
    ensures 0 < |s.slots| && s.slots[0].words == Somes(x) && s.slots[0].tag == TagFor(c, 0, KeyOf(c, x))
  {
    hide TagFor, KeyOf;
  }

  lemma ReadsThenUpdates<W>(c: Config<W>, s: State<W>, i: nat, x: Row<W>, y: Row<W>, l: Local<W>)
    requires ValidConfig(c) && i < |s.threads| && SlotIs(c, s, 0, [x]) && KeyOf(c, x) == KeyOf(c, y)
    requires l.Scan? && l.look.CheckTag? && l.call == CallInsert(y) && l.pos == 0
    requires l.t == TagFor(c, 0, KeyOf(c, x)) && l.got == s.slots[0].words
    ensures Step(c, Go(s, i, l), i, CallInsert(y)) == Go(s, i, UpdateLoad(y, 0))
  {
    hide TagFor, KeyOf, Live, Matches, NeedleFor, IdOf;
    SlotWords(c, s, x);
    WholeSomes(x);
    GoAgain(s, i, l, UpdateLoad(y, 0));
  }

  /**
   For every capacity and any two keys of one needle: between finding the key of `x` and
   its compare-and-swap the slot is published again, with `z` of another key, under an
   equal tag; the swap succeeds and `z` leaves without any insert returning it.
   */
  lemma UpdateOverwritesOtherKey<W(!new)>(
    c: Config<W>, calls: iset<Call<W>>, x: Row<W>, y: Row<W>, z: Row<W>)
    returns (threads: nat, s: State<W>, i: nat)
    requires ValidConfig(c) && IsEntry(c, x) && IsEntry(c, y) && IsEntry(c, z) && KeyOf(c, x) == KeyOf(c, y)
    requires KeyOf(c, z) != KeyOf(c, x) && NeedleFor(c, KeyOf(c, z)) == NeedleFor(c, KeyOf(c, x))
    requires CallInsert(x) in calls && CallInsert(y) in calls && CallInsert(z) in calls
    ensures ReachableBy(c, calls, threads, s) && Overwrites(c, s, i) && At(s, 0).pubs == [x, z]
    ensures s.threads[i] == UpdateCas(y, 0, At(s, 0).tag)
    ensures var s' := Step(c, s, i, CallInsert(y));
      && OwnerIs(s', i, 0) && s'.threads[i].path.Updating? && s'.threads[i].row == y
      && At(s', 0).left == [ByEviction(Some(x)), ByUpdate]
  {
    hide Reaches, Staged, SlotIs, HandAt, TagFor, NeedleFor, Rounds, KeyOf, Goes;
    var ws := Rounds([x], c.cap) + Rounds([z], c.cap);
    assert Planned(c, [x], calls) && Planned(c, [z], calls);
    RoundsPlanned(c, [x], calls);
    RoundsPlanned(c, [z], calls);
    OneRound(x, c.cap);
    OneRound(z, c.cap);
    assert ws[0] == x && ws[c.cap..] == Rounds([z], c.cap);
    var start := Init(c, |ws| + 1);
    var s0 := SetsStage(c, calls, ws);
    i, threads := |s0.threads| - 1, |ws| + 1;
    var s1 := FindsForUpdate(c, calls, s0, c.cap, ws[c.cap..], x, y);
    ReachesTwice(c, calls, start, s0, s1);
    SlotGone(c, s0, i, UpdateLoad(y, 0), [x]);
    var s2 := Round(c, calls, s1, c.cap, ws[c.cap..], UpdateLoad(y, 0));
    ReachesTwice(c, calls, start, s1, s2);
    SlotShows(c, s1, s2, [x], z);
    SlotWords(c, s0, x);
    WholeSomes(x);
    assert s2.slots[0].left == [] + [ByEviction(Some(x))];
    StagedAt(c, s2, c.cap + c.cap, ws[c.cap..][c.cap..], UpdateLoad(y, 0), 0);
    var t := TagFor(c, 0, KeyOf(c, z));
    GoesOne(c, s2, i, CallInsert(y));
    LoadsTag(c, s2, i, y, z, [x]);
    s := Moves1(c, calls, s2, c.cap + c.cap, ws[c.cap..][c.cap..], UpdateLoad(y, 0), CallInsert(y), UpdateCas(y, 0, t));
    ReachesTwice(c, calls, start, s2, s);
    SlotGone(c, s2, i, UpdateCas(y, 0, t), [x] + [z]);
    SwapTakes(c, s, i, y, z, [x]);
  }

  lemma LoadsTag<W>(c: Config<W>, s: State<W>, i: nat, y: Row<W>, z: Row<W>, pubs: seq<Row<W>>)
    requires ValidConfig(c) && i < |s.threads| && s.threads[i] == UpdateLoad(y, 0) && SlotIs(c, s, 0, pubs + [z])
    requires NeedleFor(c, KeyOf(c, z)) == NeedleFor(c, KeyOf(c, y))
    ensures Step(c, s, i, CallInsert(y)) == Go(s, i, UpdateCas(y, 0, TagFor(c, 0, KeyOf(c, z))))
  {
    hide TagFor, NeedleFor, KeyOf, Matches;
  }

  lemma SwapTakes<W>(c: Config<W>, s: State<W>, i: nat, y: Row<W>, z: Row<W>, pubs: seq<Row<W>>)
    requires ValidConfig(c) && i < |s.threads| && SlotIs(c, s, 0, pubs + [z]) && KeyOf(c, z) != KeyOf(c, y)
    requires s.threads[i] == UpdateCas(y, 0, TagFor(c, 0, KeyOf(c, z)))
    ensures Overwrites(c, s, i) && At(s, 0).pubs == pubs + [z] && s.threads[i] == UpdateCas(y, 0, At(s, 0).tag)
    ensures var s' := Step(c, s, i, CallInsert(y));
      && OwnerIs(s', i, 0) && s'.threads[i].path.Updating? && s'.threads[i].row == y
      && At(s', 0).left == At(s, 0).left + [ByUpdate]
  {
    hide TagFor, KeyOf;
  }

  ghost predicate CanOverwrite<W(!new)>(c: Config<W>, calls: iset<Call<W>>)
    requires ValidConfig(c)
  {
    exists threads, s: State<W>, i :: ReachableBy(c, calls, threads, s) && Overwrites(c, s, i)
  }

  ghost predicate Colliding<W(!new)>(c: Config<W>, calls: iset<Call<W>>, x: Row<W>, y: Row<W>)
    requires ValidConfig(c)
  {
    && IsEntry(c, x) && IsEntry(c, y) && CallInsert(x) in calls && CallInsert(y) in calls
    && KeyOf(c, x) != KeyOf(c, y) && NeedleFor(c, KeyOf(c, x)) == NeedleFor(c, KeyOf(c, y))
  }

  /** Two keys of one needle are inserted. */
  ghost predicate NeedlesMeet<W(!new)>(c: Config<W>, calls: iset<Call<W>>)
    requires ValidConfig(c)
  {
    exists x, y :: Colliding(c, calls, x, y)
  }

  /** For every capacity, an update can overwrite another key exactly when needles meet. */
  lemma OverwriteIff<W(!new)>(c: Config<W>, calls: iset<Call<W>>)
    requires ValidConfig(c)
    ensures CanOverwrite(c, calls) <==> NeedlesMeet(c, calls)
  {
    hide ReachableBy, Overwrites, NeedleFor, KeyOf;
    if NeedlesMeet(c, calls) {
      var x, z :| Colliding(c, calls, x, z);
      var threads, s, i := UpdateOverwritesOtherKey(c, calls, x, x, z);
    }
    if CanOverwrite(c, calls) {
      var threads: nat, s: State<W>, i: nat :| ReachableBy(c, calls, threads, s) && Overwrites(c, s, i);
      OverwriteMeets(c, calls, threads, s, i);
    }
  }

  lemma OverwriteMeets<W(!new)>(c: Config<W>, calls: iset<Call<W>>, threads: nat, s: State<W>, i: nat)
    requires ValidConfig(c) && ReachableBy(c, calls, threads, s) && Overwrites(c, s, i)
    ensures NeedlesMeet(c, calls)
  {
    hide Reaches, ReachableBy, NeedleFor, KeyOf;
    ReachableByIsReachable(c, calls, threads, s);
    ReachableInUse(c, calls, threads, s);
    UpdateMeetsNeedle(c, threads, s, i);
    var l := s.threads[i];
    var slot := At(s, l.pos);
    ThreadInUse(s, calls, i, l.pos);
    if l.pos < |s.slots| { PublishedIn(slot, calls); }
    assert Colliding(c, calls, slot.pubs[|slot.pubs| - 1], l.row);
  }
}

/**
 What one thread of c12s does while the others wait: how an owner takes an entry out word
 by word, writes one word by word and publishes it, and so what a whole insert does to
 the slot it takes.
 */
module ClaimAlone {
  import opened Tags
  import opened Sieve
  import opened Claim
  import opened ClaimRuns

  // ---- after some steps of one thread ----

  /** Thread `i` comes from `s` to `s'` by its own steps, none of them after an answer. */
  ghost predicate Goes<W>(c: Config<W>, s: State<W>, i: nat, call: Call<W>, s': State<W>)
    requires ValidConfig(c) && i < |s.threads|
  {
    exists n: nat :: Alone(c, s, i, call, n) == s' && Unanswered(c, s, i, call, n)
  }

  lemma GoesSelf<W>(c: Config<W>, s: State<W>, i: nat, call: Call<W>)
    requires ValidConfig(c) && i < |s.threads|
    ensures Goes(c, s, i, call, s)
  {
    assert Alone(c, s, i, call, 0) == s && Unanswered(c, s, i, call, 0);
  }

  lemma GoesOne<W>(c: Config<W>, s: State<W>, i: nat, call: Call<W>)
    requires ValidConfig(c) && i < |s.threads| && !s.threads[i].Finished?
    ensures Goes(c, s, i, call, Step(c, s, i, call)) && |Step(c, s, i, call).threads| == |s.threads|
  {
    hide Step;
    SameThreads(c, s, i, call);
    assert Alone(c, s, i, call, 1) == Alone(c, Step(c, s, i, call), i, call, 0);
    assert Alone(c, s, i, call, 0) == s;
    assert Unanswered(c, s, i, call, 1);
  }

  lemma GoesOn<W>(c: Config<W>, s: State<W>, i: nat, call: Call<W>, s1: State<W>, s2: State<W>)
    requires ValidConfig(c) && i < |s.threads| && Goes(c, s, i, call, s1)
    requires i < |s1.threads| && Goes(c, s1, i, call, s2)
    ensures Goes(c, s, i, call, s2)
  {
    hide Alone, Unanswered;
    var m: nat :| Alone(c, s, i, call, m) == s1 && Unanswered(c, s, i, call, m);
    var n: nat :| Alone(c, s1, i, call, n) == s2 && Unanswered(c, s1, i, call, n);
    AloneTwice(c, s, i, call, m, n);
    UnansweredTwice(c, s, i, call, m, n);
  }

  /** The first answer is the only one. */
  lemma OneAnswer<W>(c: Config<W>, s: State<W>, i: nat, call: Call<W>, a: State<W>, b: State<W>)
    requires ValidConfig(c) && i < |s.threads| && Goes(c, s, i, call, a) && Goes(c, s, i, call, b)
    requires i < |a.threads| && a.threads[i].Finished? && i < |b.threads| && b.threads[i].Finished?
    ensures a == b
  {
    hide Alone;
    var m: nat :| Alone(c, s, i, call, m) == a && Unanswered(c, s, i, call, m);
    var n: nat :| Alone(c, s, i, call, n) == b && Unanswered(c, s, i, call, n);
    assert m >= n || Alone(c, s, i, call, m).threads[i].Finished?;
  }

  // ---- a thread and the slot it works at ----

  /** What a thread working at one slot may have changed: itself, the slot, `len` and the hand. */
  datatype Scene<+W> = Scene(l: Local<W>, slot: Slot<W>, len: nat, hand: nat)

  ghost function Mid<W>(s: State<W>, i: nat, p: nat, x: Scene<W>): State<W>
    requires i < |s.threads| && p < |s.slots|
  {
    State(s.slots[p := x.slot], x.len, x.hand, s.threads[i := x.l])
  }

  lemma MidLaws<W>(s: State<W>, i: nat, p: nat, x: Scene<W>)
    requires i < |s.threads| && p < |s.slots|
    ensures var g := Mid(s, i, p, x);
      && |g.threads| == |s.threads| && |g.slots| == |s.slots| && g.threads[i] == x.l && At(g, p) == x.slot
      && g.len == x.len && g.hand == x.hand
      && (forall l :: Go(g, i, l) == Mid(s, i, p, x.(l := l)))
      && (forall l, b :: Put(g, i, l, p, b) == Mid(s, i, p, x.(l := l, slot := b)))
  {
    var g := Mid(s, i, p, x);
    forall l ensures Go(g, i, l) == Mid(s, i, p, x.(l := l)) { assert g.threads[i := l] == s.threads[i := l]; }
    forall l, b ensures Put(g, i, l, p, b) == Mid(s, i, p, x.(l := l, slot := b)) {
      assert g.threads[i := l] == s.threads[i := l] && g.slots[p := b] == s.slots[p := b];
    }
  }

  lemma MidSelf<W>(s: State<W>, i: nat, p: nat)
    requires i < |s.threads| && p < |s.slots|
    ensures Mid(s, i, p, Scene(s.threads[i], s.slots[p], s.len, s.hand)) == s
  {
    assert s.slots[p := s.slots[p]] == s.slots && s.threads[i := s.threads[i]] == s.threads;
  }

  /** From one scene to another by the thread's steps. */
  ghost predicate Plays<W>(c: Config<W>, s: State<W>, i: nat, p: nat, call: Call<W>, x: Scene<W>, y: Scene<W>)
    requires ValidConfig(c) && i < |s.threads| && p < |s.slots|
  {
    Goes(c, Mid(s, i, p, x), i, call, Mid(s, i, p, y))
  }

  lemma PlaysOn<W>(c: Config<W>, s: State<W>, i: nat, p: nat, call: Call<W>, x: Scene<W>, y: Scene<W>, z: Scene<W>)
    requires ValidConfig(c) && i < |s.threads| && p < |s.slots|
    requires Plays(c, s, i, p, call, x, y) && Plays(c, s, i, p, call, y, z)
    ensures Plays(c, s, i, p, call, x, z)
  {
    hide Goes;
    GoesOn(c, Mid(s, i, p, x), i, call, Mid(s, i, p, y), Mid(s, i, p, z));
  }

  lemma PlaysOne<W>(c: Config<W>, s: State<W>, i: nat, p: nat, call: Call<W>, x: Scene<W>, y: Scene<W>)
    requires ValidConfig(c) && i < |s.threads| && p < |s.slots|
    requires Step(c, Mid(s, i, p, x), i, call) == Mid(s, i, p, y) && !x.l.Finished?
    ensures Plays(c, s, i, p, call, x, y)
  {
    hide Goes, Step;
    GoesOne(c, Mid(s, i, p, x), i, call);
  }

  // ---- word by word ----

  /** The words met so far are the slot's. */
  ghost predicate SameTo<W>(order: seq<nat>, m: nat, got: seq<Option<W>>, words: seq<Option<W>>) {
    m <= |order| && |got| == |words| && forall x | 0 <= x < m :: order[x] < |got| ==> got[order[x]] == words[order[x]]
  }

  lemma SameAll<W>(order: seq<nat>, got: seq<Option<W>>, words: seq<Option<W>>)
    requires Covers(order, |words|) && SameTo(order, |order|, got, words)
    ensures got == words
  {
    forall j | 0 <= j < |words| ensures got[j] == words[j] { assert j in order; }
  }

  lemma SameOne<W>(order: seq<nat>, m: nat, got: seq<Option<W>>, words: seq<Option<W>>)
    requires SameTo(order, m, got, words) && m < |order| && order[m] < |words|
    ensures SameTo(order, m + 1, WithWord(got, order[m], words[order[m]]), words)
  {
  }

  /** The rest of the evicted entry is taken out. */
  lemma {:induction false} TakesAll<W>(c: Config<W>, s: State<W>, i: nat, p: nat, call: Call<W>, x: Scene<W>)
    requires ValidConfig(c) && i < |s.threads| && p < |s.slots|
    requires x.l.Own? && x.l.at.TakeWord? && x.l.pos == p && IdOf(c.scheme.layout, x.l.t) == p
    requires |x.slot.words| == Width(c) && x.l.m < |c.orders.take|
    requires SameTo(c.orders.take, x.l.m, x.l.got, x.slot.words)
    ensures Plays(c, s, i, p, call, x, x.(l := x.l.(at := WriteWord, m := 0, got := x.slot.words)))
    decreases |c.orders.take| - x.l.m
  {
    hide IdOf, Covers, Plays, SameTo, Go, Mid;
    MidLaws(s, i, p, x);
    var order, m := c.orders.take, x.l.m;
    OrdersCover(c, call);
    OrderWithin(c, order, m);
    var got := WithWord(x.l.got, order[m], x.slot.words[order[m]]);
    SameOne(order, m, x.l.got, x.slot.words);
    if m + 1 < |order| {
      var y := x.(l := x.l.(at := TakeWord, m := m + 1, got := got));
      PlaysOne(c, s, i, p, call, x, y);
      TakesAll(c, s, i, p, call, y);
      PlaysOn(c, s, i, p, call, x, y, x.(l := x.l.(at := WriteWord, m := 0, got := x.slot.words)));
    } else {
      SameAll(order, got, x.slot.words);
      PlaysOne(c, s, i, p, call, x, x.(l := x.l.(at := WriteWord, m := 0, got := got)));
    }
  }

  /** The rest of a candidate is read. */
  lemma {:induction false} ReadsAll<W>(c: Config<W>, s: State<W>, i: nat, p: nat, call: Call<W>, x: Scene<W>)
    requires ValidConfig(c) && i < |s.threads| && p < |s.slots|
    requires x.l.Scan? && x.l.look.ReadWord? && x.l.pos == p && IdOf(c.scheme.layout, x.l.t) == p
    requires |x.slot.words| == Width(c) && x.l.m < |ReadOrder(c, x.l.call)|
    requires SameTo(ReadOrder(c, x.l.call), x.l.m, x.l.got, x.slot.words)
    ensures Plays(c, s, i, p, call, x,
                  x.(l := x.l.(look := CheckTag, m := |ReadOrder(c, x.l.call)|, got := x.slot.words)))
    decreases |ReadOrder(c, x.l.call)| - x.l.m
  {
    hide IdOf, Covers, Plays, SameTo, Go, Mid, Matches, NeedleFor;
    MidLaws(s, i, p, x);
    var order, m := ReadOrder(c, x.l.call), x.l.m;
    OrdersCover(c, x.l.call);
    OrderWithin(c, order, m);
    var got := WithWord(x.l.got, order[m], x.slot.words[order[m]]);
    SameOne(order, m, x.l.got, x.slot.words);
    if m + 1 < |order| {
      var y := x.(l := x.l.(look := ReadWord, m := m + 1, got := got));
      PlaysOne(c, s, i, p, call, x, y);
      ReadsAll(c, s, i, p, call, y);
      PlaysOn(c, s, i, p, call, x, y, x.(l := x.l.(look := CheckTag, m := |order|, got := x.slot.words)));
    } else {
      SameAll(order, got, x.slot.words);
      PlaysOne(c, s, i, p, call, x, x.(l := x.l.(look := CheckTag, m := |order|, got := got)));
    }
  }

  /** What comes after the last word. */
  function AfterWords(path: Path): OwnAt { if path.Updating? then Publish else ClearBit }

  /** The rest of the new entry is written. */
  lemma {:induction false} WritesAll<W>(c: Config<W>, s: State<W>, i: nat, p: nat, call: Call<W>, x: Scene<W>)
    requires ValidConfig(c) && i < |s.threads| && p < |s.slots|
    requires x.l.Own? && x.l.at.WriteWord? && x.l.pos == p && IsEntry(c, x.l.row)
    requires |x.slot.words| == Width(c) && x.l.m < |c.orders.write|
    requires WroteTo(c.orders.write, x.l.m, x.slot.words, x.l.row)
    ensures Plays(c, s, i, p, call, x,
                  x.(l := x.l.(at := AfterWords(x.l.path), m := |c.orders.write|),
                     slot := x.slot.(words := Somes(x.l.row))))
    decreases |c.orders.write| - x.l.m
  {
    hide IdOf, Covers, Plays, WroteTo, Put, Mid;
    MidLaws(s, i, p, x);
    var order, m := c.orders.write, x.l.m;
    OrdersCover(c, call);
    OrderWithin(c, order, m);
    var b := Written(x.slot, x.l.row, order[m]);
    WroteOne(order, m, x.slot.words, x.l.row);
    if m + 1 < |order| {
      var y := x.(l := x.l.(at := WriteWord, m := m + 1), slot := b);
      PlaysOne(c, s, i, p, call, x, y);
      WritesAll(c, s, i, p, call, y);
      PlaysOn(c, s, i, p, call, x, y,
              x.(l := x.l.(at := AfterWords(x.l.path), m := |order|), slot := x.slot.(words := Somes(x.l.row))));
    } else {
      AllWritten(order, b.words, x.l.row);
      PlaysOne(c, s, i, p, call, x, x.(l := x.l.(at := AfterWords(x.l.path), m := |order|), slot := b));
    }
  }

  lemma WroteOne<W>(order: seq<nat>, m: nat, words: seq<Option<W>>, row: Row<W>)
    requires WroteTo(order, m, words, row) && m < |order| && order[m] < |words| == |row|
    ensures WroteTo(order, m + 1, WithWord(words, order[m], Some(row[order[m]])), row)
  {
  }

  // ---- from the claim to the answer ----

  /** The slot when its owner has published. */
  ghost function Installed<W>(c: Config<W>, slot: Slot<W>, l: Local<W>): Slot<W>
    requires ValidConfig(c) && l.Own? && l.pos < c.cap
  {
    var full := slot.(words := Somes(l.row), visited := l.path.Updating?);
    var gone := if l.path.Replacing? then Returned(full, Whole(l.got)) else full;
    Published(gone, TagFor(c, l.pos, KeyOf(c, l.row)), l.row)
  }

  ghost function Answer<W>(l: Local<W>): Option<Row<W>>
    requires l.Own?
  {
    if l.path.Replacing? then Whole(l.got) else None
  }

  /** The owner writes, then clears or sets the visited bit, and publishes. */
  lemma Installs<W>(c: Config<W>, s: State<W>, i: nat, p: nat, call: Call<W>, x: Scene<W>)
    requires ValidConfig(c) && i < |s.threads| && p < |s.slots| && p < c.cap
    requires x.l.Own? && x.l.at.WriteWord? && x.l.m == 0 && x.l.pos == p && IsEntry(c, x.l.row)
    requires |x.slot.words| == Width(c)
    ensures Plays(c, s, i, p, call, x,
                  x.(l := Finished(Inserted(Answer(x.l))), slot := Installed(c, x.slot, x.l)))
  {
    hide TagFor, IdOf, Covers, Plays, Mid, Put, Go, KeyOf, Whole, Somes;
    OrderStarts(c);
    WritesAll(c, s, i, p, call, x);
    var n := |c.orders.write|;
    var y := x.(l := x.l.(at := AfterWords(x.l.path), m := n), slot := x.slot.(words := Somes(x.l.row)));
    var z := x.(l := Finished(Inserted(Answer(x.l))), slot := Installed(c, x.slot, x.l));
    MidLaws(s, i, p, y);
    if x.l.path.Updating? {
      var u := y.(l := UpdateVisit(p), slot := Published(y.slot, TagFor(c, p, KeyOf(c, x.l.row)), x.l.row));
      PlaysOne(c, s, i, p, call, y, u);
      MidLaws(s, i, p, u);
      PlaysOne(c, s, i, p, call, u, z);
      PlaysOn(c, s, i, p, call, y, u, z);
    } else {
      var u := y.(l := y.l.(at := Publish), slot := y.slot.(visited := false));
      PlaysOne(c, s, i, p, call, y, u);
      MidLaws(s, i, p, u);
      PlaysOne(c, s, i, p, call, u, z);
      PlaysOn(c, s, i, p, call, y, u, z);
    }
    PlaysOn(c, s, i, p, call, x, y, z);
  }

  /** The slot `slot` at `p` after one more publication there. */
  ghost function Next<W>(c: Config<W>, slot: Slot<W>, p: nat, row: Row<W>, left: seq<Leave<W>>): Slot<W>
    requires ValidConfig(c) && p < c.cap
  {
    Slot(TagFor(c, p, KeyOf(c, row)), Somes(row), false, slot.pubs + [row], left, None, None)
  }

  /** Warm-up: `len` is read, claimed by compare-and-swap, and its slot published. */
  lemma PublishesWarm<W>(c: Config<W>, s: State<W>, i: nat, row: Row<W>, call: Call<W>)
    requires ValidConfig(c) && i < |s.threads| && s.threads[i] == WarmLoad(row) && s.len < c.cap <= |s.slots|
    requires IsEntry(c, row) && |s.slots[s.len].words| == Width(c)
    ensures var p := s.len;
      Goes(c, s, i, call, Mid(s, i, p, Scene(Finished(Inserted(None)), Next(c, s.slots[p], p, row, s.slots[p].left),
                                             p + 1, s.hand)))
  {
    hide TagFor, Goes, Mid, Put, Go, KeyOf, Somes;
    var p := s.len;
    MidSelf(s, i, p);
    var x := Scene(s.threads[i], s.slots[p], p, s.hand);
    var y := x.(l := WarmCas(row, p));
    var z := Scene(Own(Warming, WriteWord, row, p, EMPTY, 0, []), Reserved(s.slots[p], i, row), p + 1, s.hand);
    MidLaws(s, i, p, x);
    PlaysOne(c, s, i, p, call, x, y);
    MidLaws(s, i, p, y);
    assert Step(c, Mid(s, i, p, y), i, call) == Mid(s, i, p, z) by { LenMoves(s, i, p, y, z); }
    PlaysOne(c, s, i, p, call, y, z);
    Installs(c, s, i, p, call, z);
    PlaysOn(c, s, i, p, call, x, y, z);
    PlaysOn(c, s, i, p, call, x, z, z.(l := Finished(Inserted(None)), slot := Installed(c, z.slot, z.l)));
    assert Installed(c, z.slot, z.l) == Next(c, s.slots[p], p, row, s.slots[p].left);
  }

  lemma LenMoves<W>(s: State<W>, i: nat, p: nat, y: Scene<W>, z: Scene<W>)
    requires i < |s.threads| && p < |s.slots|
    ensures var u := y.(l := z.l, slot := z.slot); Mid(s, i, p, u).(len := z.len) == Mid(s, i, p, u.(len := z.len))
  {
  }

  /** The slot as its evictor leaves it, with the entry it took out in its hands. */
  ghost function Evicted<W>(slot: Slot<W>, i: nat, row: Row<W>): Slot<W> {
    Claimed(slot, i, ByEviction(None), row).(visited := false)
  }

  /** After the claim: the bit is cleared, the entry taken out, the new one published. */
  lemma Replaces<W>(c: Config<W>, s: State<W>, i: nat, p: nat, call: Call<W>, x: Scene<W>, slot: Slot<W>, row: Row<W>)
    requires ValidConfig(c) && i < |s.threads| && p < |s.slots| && p < c.cap
    requires IsEntry(c, row) && |slot.words| == Width(c) && IdOf(c.scheme.layout, slot.tag) == p
    requires x.l == Own(Replacing, Unvisit, row, p, slot.tag, 0, Nones(Width(c)))
    requires x.slot == Claimed(slot, i, ByEviction(None), row)
    ensures var out := Whole(slot.words);
      Plays(c, s, i, p, call, x,
            x.(l := Finished(Inserted(out)), slot := Next(c, slot, p, row, slot.left + [ByEviction(out)])))
  {
    hide TagFor, IdOf, Covers, Plays, Mid, Put, Go, KeyOf, Whole, Somes;
    OrderStarts(c);
    var y := x.(l := x.l.(at := TakeWord), slot := Evicted(slot, i, row));
    MidLaws(s, i, p, x);
    PlaysOne(c, s, i, p, call, x, y);
    TakesAll(c, s, i, p, call, y);
    var z := y.(l := y.l.(at := WriteWord, m := 0, got := slot.words));
    PlaysOn(c, s, i, p, call, x, y, z);
    Installs(c, s, i, p, call, z);
    var out := Whole(slot.words);
    PlaysOn(c, s, i, p, call, x, z, z.(l := Finished(Inserted(Answer(z.l))), slot := Installed(c, z.slot, z.l)));
    assert (slot.left + [ByEviction(None)])[|slot.left| := ByEviction(out)] == slot.left + [ByEviction(out)];
    assert Installed(c, z.slot, z.l) == Next(c, slot, p, row, slot.left + [ByEviction(out)]);
  }

  /** Full: `len` is read once more, and the hand is sent. */
  lemma SendsHand<W>(c: Config<W>, s: State<W>, i: nat, row: Row<W>, call: Call<W>)
    requires ValidConfig(c) && i < |s.threads| && s.threads[i] == WarmLoad(row) && s.len == c.cap
    ensures Goes(c, s, i, call, Go(s, i, Hand(row)))
  {
    hide Goes;
    var s1, s2 := Go(s, i, WarmCas(row, s.len)), Go(s, i, Hand(row));
    assert s1.threads[i := Hand(row)] == s2.threads;
    GoesOne(c, s, i, call);
    GoesOne(c, s1, i, call);
    GoesOn(c, s, i, call, s1, s2);
  }

  /** Full, and the slot under the hand unvisited: it is replaced. */
  lemma PublishesFull<W>(c: Config<W>, s: State<W>, i: nat, row: Row<W>, call: Call<W>)
    requires ValidConfig(c) && i < |s.threads| && s.threads[i] == WarmLoad(row) && s.len == c.cap && Full(c, s)
    requires var p := s.hand % c.cap;
      IdOf(c.scheme.layout, s.slots[p].tag) == p && !s.slots[p].visited && |s.slots[p].words| == Width(c)
    requires IsEntry(c, row)
    ensures var p := s.hand % c.cap; var out := Whole(s.slots[p].words);
      Goes(c, s, i, call, Mid(s, i, p, Scene(Finished(Inserted(out)),
                                             Next(c, s.slots[p], p, row, s.slots[p].left + [ByEviction(out)]),
                                             s.len, s.hand + 1)))
  {
    hide TagFor, Live, IdOf, Step, Alone, KeyOf, Somes, Whole, Next;
    var p := s.hand % c.cap;
    var slot := s.slots[p];
    SendsHand(c, s, i, row, call);
    var s1 := Go(s, i, Hand(row));
    HandTurn(c, s1, i, call, row);
    var x := Scene(Own(Replacing, Unvisit, row, p, slot.tag, 0, Nones(Width(c))),
                   Claimed(slot, i, ByEviction(None), row), s.len, s.hand + 1);
    assert s1.threads[i := x.l] == s.threads[i := x.l];
    assert Alone(c, s1, i, call, 4) == Mid(s, i, p, x);
    assert Goes(c, s1, i, call, Mid(s, i, p, x));
    GoesOn(c, s, i, call, s1, Mid(s, i, p, x));
    Replaces(c, s, i, p, call, x, slot, row);
    var out := Whole(slot.words);
    var y := x.(l := Finished(Inserted(out)), slot := Next(c, slot, p, row, slot.left + [ByEviction(out)]));
    GoesOn(c, s, i, call, Mid(s, i, p, x), Mid(s, i, p, y));
  }
}

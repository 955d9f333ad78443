/**
 Bringing the c12s protocol to a chosen state, for every capacity: writers are parked
 behind their scans of an empty shard, one writer per slot publishes, and the others
 replace the slots in turn, round after round, while one more thread does as it likes.
 */
module ClaimStaging {
  import opened Tags
  import opened Sieve
  import opened Claim
  import opened ClaimRuns
  import opened ClaimUse
  import opened ClaimAlone

  // ---- reaching a state by chosen threads ----

  lemma {:induction false} RunTwice<W>(c: Config<W>, s: State<W>, a: seq<Turn<W>>, b: seq<Turn<W>>)
    requires ValidConfig(c) && Scheduled(c, a, |s.threads|) && Scheduled(c, b, |s.threads|)
    ensures Scheduled(c, a + b, |s.threads|) && Run(c, s, a + b) == Run(c, Run(c, s, a), b)
    decreases |a|
  {
    hide Step;
    if a == [] {
      assert a + b == b;
    } else {
      SameThreads(c, s, a[0].thread, a[0].call);
      RunTwice(c, Step(c, s, a[0].thread, a[0].call), a[1..], b);
      assert (a + b)[0] == a[0] && (a + b)[1..] == a[1..] + b;
    }
  }

  lemma ReachesTwice<W(!new)>(c: Config<W>, calls: iset<Call<W>>, s: State<W>, s': State<W>, s'': State<W>)
    requires ValidConfig(c) && Reaches(c, calls, s, s') && Reaches(c, calls, s', s'')
    ensures Reaches(c, calls, s, s'')
  {
    hide Step, Run;
    var a :| Scheduled(c, a, |s.threads|) && Uses(a, calls) && s' == Run(c, s, a);
    var b :| Scheduled(c, b, |s'.threads|) && Uses(b, calls) && s'' == Run(c, s', b);
    RunTwice(c, s, a, b);
    assert Uses(a + b, calls);
  }

  lemma ReachesSelf<W(!new)>(c: Config<W>, calls: iset<Call<W>>, s: State<W>)
    requires ValidConfig(c)
    ensures Reaches(c, calls, s, s)
  {
    var none: seq<Turn<W>> := [];
    assert Run(c, s, none) == s && Scheduled(c, none, |s.threads|) && Uses(none, calls);
  }

  lemma OneTurn<W(!new)>(c: Config<W>, calls: iset<Call<W>>, s: State<W>, i: nat, call: Call<W>)
    requires ValidConfig(c) && i < |s.threads| && call in calls && Fits(c, call)
    ensures Reaches(c, calls, s, Step(c, s, i, call))
  {
    hide Step;
    SameThreads(c, s, i, call);
    var sched := [Turn(i, call)];
    assert Scheduled(c, sched, |s.threads|) && Uses(sched, calls);
    assert Run(c, s, sched) == Run(c, Step(c, s, i, call), sched[1..]) == Step(c, s, i, call);
  }

  lemma {:induction false} AloneReaches<W(!new)>(
    c: Config<W>, calls: iset<Call<W>>, s: State<W>, i: nat, call: Call<W>, n: nat)
    requires ValidConfig(c) && i < |s.threads| && call in calls && Fits(c, call)
    ensures Reaches(c, calls, s, Alone(c, s, i, call, n))
    decreases n
  {
    hide Step, Run, Reaches;
    ReachesSelf(c, calls, s);
    if n > 0 {
      SameThreads(c, s, i, call);
      var next := Step(c, s, i, call);
      OneTurn(c, calls, s, i, call);
      AloneReaches(c, calls, next, i, call, n - 1);
      ReachesTwice(c, calls, s, next, Alone(c, next, i, call, n - 1));
    }
  }

  lemma GoesReaches<W(!new)>(
    c: Config<W>, calls: iset<Call<W>>, s: State<W>, i: nat, call: Call<W>, s': State<W>)
    requires ValidConfig(c) && i < |s.threads| && call in calls && Fits(c, call) && Goes(c, s, i, call, s')
    ensures Reaches(c, calls, s, s')
  {
    hide Step, Reaches, Alone;
    var n: nat :| Alone(c, s, i, call, n) == s' && Unanswered(c, s, i, call, n);
    AloneReaches(c, calls, s, i, call, n);
  }

  // ---- parking writers behind the scan of an empty shard ----

  ghost predicate AllBlank<W>(s: State<W>) {
    forall p | 0 <= p < |s.slots| :: s.slots[p].tag == EMPTY
  }

  lemma {:induction false} ScansBlank<W>(c: Config<W>, s: State<W>, i: nat, row: Row<W>, pos: nat)
    requires ValidConfig(c) && i < |s.threads| && AllBlank(s) && pos <= |s.slots|
    ensures Goes(c, Go(s, i, At0(CallInsert(row), pos)), i, CallInsert(row), Go(s, i, WarmLoad(row)))
    decreases |s.slots| - pos
  {
    hide Goes, Matches, NeedleFor, TagFor, IdOf, Live;
    var call := CallInsert(row);
    var l, next := At0(call, pos), if pos < |s.slots| then At0(call, pos + 1) else WarmLoad(row);
    NoMatchEmpty(c, KeyOf(c, row));
    var s0 := Go(s, i, l);
    assert s0.threads[i := next] == s.threads[i := next];
    assert Step(c, s0, i, call) == Go(s, i, next);
    GoesOne(c, s0, i, call);
    if pos < |s.slots| {
      ScansBlank(c, s, i, row, pos + 1);
      GoesOn(c, s0, i, call, Go(s, i, next), Go(s, i, WarmLoad(row)));
    }
  }

  /** Entries to be inserted, in order, by one thread each. */
  ghost predicate Planned<W(!new)>(c: Config<W>, ws: seq<Row<W>>, calls: iset<Call<W>>) {
    forall j | 0 <= j < |ws| :: IsEntry(c, ws[j]) && CallInsert(ws[j]) in calls
  }

  /** From thread `from` on, the threads wait to insert `ws`. */
  ghost predicate Waiting<W>(s: State<W>, from: nat, ws: seq<Row<W>>) {
    from + |ws| <= |s.threads| && forall j | 0 <= j < |ws| :: s.threads[from + j] == WarmLoad(ws[j])
  }

  lemma {:induction false} ParksAll<W(!new)>(c: Config<W>, calls: iset<Call<W>>, threads: nat, ws: seq<Row<W>>)
    returns (s: State<W>)
    requires ValidConfig(c) && Planned(c, ws, calls) && |ws| <= threads
    ensures Reaches(c, calls, Init(c, threads), s) && |s.threads| == threads
    ensures s.slots == Init(c, threads).slots && s.len == 0 && s.hand == 0
    ensures Waiting(s, 0, ws) && forall j | |ws| <= j < threads :: s.threads[j] == Idle
    decreases |ws|
  {
    hide RoundUp, Reaches, Goes, TagFor;
    var start: State<W> := Init(c, threads);
    if ws == [] {
      s := start;
      ReachesSelf(c, calls, s);
    } else {
      var i := |ws| - 1;
      var row := ws[i];
      var before := ParksAll(c, calls, threads, ws[..i]);
      var call := CallInsert(row);
      assert Step(c, before, i, call) == Go(before, i, At0(call, 0));
      GoesOne(c, before, i, call);
      ScansBlank(c, before, i, row, 0);
      s := Go(before, i, WarmLoad(row));
      GoesOn(c, before, i, call, Go(before, i, At0(call, 0)), s);
      GoesReaches(c, calls, before, i, call, s);
      ReachesTwice(c, calls, start, before, s);
      forall j | 0 <= j < |ws| ensures s.threads[j] == WarmLoad(ws[j]) {
        if j < i { assert before.threads[0 + j] == WarmLoad(ws[..i][j]); }
      }
    }
  }

  // ---- publishing, slot after slot and round after round ----

  /** Published, named by its position and not visited. */
  ghost predicate Fresh<W>(c: Config<W>, p: nat, slot: Slot<W>)
    requires ValidConfig(c)
  {
    Live(slot.tag) && IdOf(c.scheme.layout, slot.tag) == p && !slot.visited
  }

  /** Slots below `len` are fresh, `ws` waits from thread `from` on, and the last thread is at `r`. */
  ghost predicate Staged<W>(c: Config<W>, s: State<W>, from: nat, ws: seq<Row<W>>, r: Local<W>)
    requires ValidConfig(c)
  {
    && s.len <= c.cap <= |s.slots|
    && (forall p | 0 <= p < |s.slots| :: |s.slots[p].words| == Width(c))
    && (forall p | 0 <= p < s.len :: Fresh(c, p, s.slots[p]))
    && Waiting(s, from, ws) && from + |ws| < |s.threads| && s.threads[|s.threads| - 1] == r
  }

  /** The entries published in slot `p` so far, of which it shows the last. */
  ghost predicate SlotIs<W>(c: Config<W>, s: State<W>, p: nat, pubs: seq<Row<W>>)
    requires ValidConfig(c) && p < c.cap
  {
    && p < |s.slots| && s.slots[p].pubs == pubs && HoldsLast(s.slots[p])
    && s.slots[p].tag == TagFor(c, p, KeyOf(c, pubs[|pubs| - 1]))
  }

  /** From `s` to `s'` a writer published `row` in slot `p`. */
  ghost predicate Adds<W>(c: Config<W>, s: State<W>, s': State<W>, p: nat, row: Row<W>)
    requires ValidConfig(c) && p < c.cap
  {
    && p < |s.slots| == |s'.slots| && |s'.threads| == |s.threads| && s'.slots == s.slots[p := s'.slots[p]]
    && SlotIs(c, s', p, s.slots[p].pubs + [row])
  }

  /** One writer has finished, and its slot is fresh: the stage is set for the next. */
  lemma StageAfter<W>(c: Config<W>, s: State<W>, from: nat, ws: seq<Row<W>>, r: Local<W>, p: nat, x: Scene<W>)
    requires ValidConfig(c) && Staged(c, s, from, ws, r) && ws != [] && p < c.cap && IsEntry(c, ws[0])
    requires x.slot == Next(c, s.slots[p], p, ws[0], x.slot.left)
    requires (x.len == s.len && p < s.len) || (x.len == s.len + 1 && p == s.len)
    ensures var s' := Mid(s, from, p, x); Staged(c, s', from + 1, ws[1..], r) && Adds(c, s, s', p, ws[0])
  {
    hide TagFor, IdOf, Live, KeyOf;
    var s' := Mid(s, from, p, x);
    forall j | 0 <= j < |ws| - 1 ensures s'.threads[from + 1 + j] == WarmLoad(ws[1..][j]) {
      assert s.threads[from + (j + 1)] == WarmLoad(ws[j + 1]);
    }
  }

  lemma NextLeft<W>(c: Config<W>, slot: Slot<W>, p: nat, row: Row<W>, left: seq<Leave<W>>)
    requires ValidConfig(c) && p < c.cap
    ensures Next(c, slot, p, row, left).left == left
  {
  }

  lemma StagedAt<W>(c: Config<W>, s: State<W>, from: nat, ws: seq<Row<W>>, r: Local<W>, p: nat)
    requires ValidConfig(c) && Staged(c, s, from, ws, r) && p < c.cap
    ensures s.len <= c.cap <= |s.slots| && |s.slots[p].words| == Width(c) && (p < s.len ==> Fresh(c, p, s.slots[p]))
    ensures from + |ws| < |s.threads| && (ws != [] ==> s.threads[from] == WarmLoad(ws[0]))
    ensures s.threads[|s.threads| - 1] == r
    ensures s.len == c.cap ==> Full(c, s)
  {
    hide IdOf, Live;
    if ws != [] { assert s.threads[from + 0] == WarmLoad(ws[0]); }
    if s.len == c.cap {
      forall q | 0 <= q < c.cap ensures Live(s.slots[q].tag) { assert Fresh(c, q, s.slots[q]); }
    }
  }

  lemma PlannedAt<W(!new)>(c: Config<W>, ws: seq<Row<W>>, calls: iset<Call<W>>)
    requires Planned(c, ws, calls) && ws != []
    ensures IsEntry(c, ws[0]) && CallInsert(ws[0]) in calls && Fits(c, CallInsert(ws[0]))
    ensures forall n | 0 <= n <= |ws| :: Planned(c, ws[n..], calls)
  {
  }

  /** Warm-up: the next writer publishes in the next slot. */
  lemma FillsOne<W(!new)>(
    c: Config<W>, calls: iset<Call<W>>, s: State<W>, from: nat, ws: seq<Row<W>>, r: Local<W>) returns (s': State<W>)
    requires ValidConfig(c) && Staged(c, s, from, ws, r) && Planned(c, ws, calls) && ws != [] && s.len < c.cap
    ensures Reaches(c, calls, s, s') && Staged(c, s', from + 1, ws[1..], r) && Adds(c, s, s', s.len, ws[0])
    ensures s'.len == s.len + 1 && s'.hand == s.hand && s'.slots[s.len].left == s.slots[s.len].left
  {
    hide TagFor, IdOf, Live, KeyOf, Goes, Reaches, Next, Staged, Adds, Planned;
    var p := s.len;
    StagedAt(c, s, from, ws, r, p);
    PlannedAt(c, ws, calls);
    PublishesWarm(c, s, from, ws[0], CallInsert(ws[0]));
    var x := Scene(Finished(Inserted(None)), Next(c, s.slots[p], p, ws[0], s.slots[p].left), p + 1, s.hand);
    s' := Mid(s, from, p, x);
    GoesReaches(c, calls, s, from, CallInsert(ws[0]), s');
    NextLeft(c, s.slots[p], p, ws[0], s.slots[p].left);
    StageAfter(c, s, from, ws, r, p, x);
  }

  /** Full: the next writer replaces the slot under the hand. */
  lemma TurnsOne<W(!new)>(
    c: Config<W>, calls: iset<Call<W>>, s: State<W>, from: nat, ws: seq<Row<W>>, r: Local<W>) returns (s': State<W>)
    requires ValidConfig(c) && Staged(c, s, from, ws, r) && Planned(c, ws, calls) && ws != [] && s.len == c.cap
    ensures Reaches(c, calls, s, s') && Staged(c, s', from + 1, ws[1..], r) && Adds(c, s, s', s.hand % c.cap, ws[0])
    ensures s'.len == s.len && s'.hand == s.hand + 1
    ensures var p := s.hand % c.cap; s'.slots[p].left == s.slots[p].left + [ByEviction(Whole(s.slots[p].words))]
  {
    hide TagFor, IdOf, Live, KeyOf, Goes, Reaches, Next, Staged, Adds, Planned, Whole, Full;
    var p := s.hand % c.cap;
    StagedAt(c, s, from, ws, r, p);
    PlannedAt(c, ws, calls);
    PublishesFull(c, s, from, ws[0], CallInsert(ws[0]));
    var out := Whole(s.slots[p].words);
    var left := s.slots[p].left + [ByEviction(out)];
    var x := Scene(Finished(Inserted(out)), Next(c, s.slots[p], p, ws[0], left), s.len, s.hand + 1);
    s' := Mid(s, from, p, x);
    GoesReaches(c, calls, s, from, CallInsert(ws[0]), s');
    NextLeft(c, s.slots[p], p, ws[0], left);
    StageAfter(c, s, from, ws, r, p, x);
  }

  /** Slot 0 is not touched by a publication elsewhere. */
  lemma AddsAt<W>(c: Config<W>, s: State<W>, s': State<W>, p: nat, row: Row<W>)
    requires ValidConfig(c) && p < c.cap && Adds(c, s, s', p, row)
    ensures |s'.slots| == |s.slots| > 0 && |s'.threads| == |s.threads|
    ensures if p == 0 then SlotIs(c, s', 0, s.slots[0].pubs + [row]) else s'.slots[0] == s.slots[0]
  {
    hide TagFor, KeyOf;
  }

  lemma SlotKept<W>(c: Config<W>, s: State<W>, s': State<W>, pubs: seq<Row<W>>)
    requires ValidConfig(c) && SlotIs(c, s, 0, pubs) && 0 < |s.slots| == |s'.slots| && s'.slots[0] == s.slots[0]
    ensures SlotIs(c, s', 0, pubs)
  {
    hide TagFor, KeyOf;
  }

  /** One writer for each slot still empty. */
  lemma {:induction false} Fills<W(!new)>(
    c: Config<W>, calls: iset<Call<W>>, s: State<W>, from: nat, ws: seq<Row<W>>, r: Local<W>) returns (s': State<W>)
    requires ValidConfig(c) && Staged(c, s, from, ws, r) && Planned(c, ws, calls)
    requires s.len <= c.cap && c.cap - s.len <= |ws|
    ensures Reaches(c, calls, s, s') && Staged(c, s', from + (c.cap - s.len), ws[c.cap - s.len..], r)
    ensures s'.len == c.cap && s'.hand == s.hand && |s'.threads| == |s.threads| && |s'.slots| == |s.slots| > 0
    ensures if s.len == 0 then SlotIs(c, s', 0, s.slots[0].pubs + [ws[0]]) && s'.slots[0].left == s.slots[0].left
            else s'.slots[0] == s.slots[0]
    decreases c.cap - s.len
  {
    hide Reaches, Staged, Adds, SlotIs, Planned;
    StagedAt(c, s, from, ws, r, 0);
    if s.len == c.cap {
      s' := s;
      ReachesSelf(c, calls, s);
      assert ws[0..] == ws;
    } else {
      PlannedAt(c, ws, calls);
      var s1 := FillsOne(c, calls, s, from, ws, r);
      AddsAt(c, s, s1, s.len, ws[0]);
      s' := Fills(c, calls, s1, from + 1, ws[1..], r);
      ReachesTwice(c, calls, s, s1, s');
      assert ws[1..][c.cap - s.len - 1..] == ws[c.cap - s.len..];
      if s.len == 0 { SlotKept(c, s1, s', s.slots[0].pubs + [ws[0]]); }
    }
  }

  /** The hand is at slot `m`, the end being the start. */
  ghost predicate HandAt<W>(c: Config<W>, s: State<W>, m: nat)
    requires 0 < c.cap
  {
    s.hand % c.cap == if m == c.cap then 0 else m
  }

  lemma HandMoves<W>(c: Config<W>, s: State<W>, s': State<W>, m: nat)
    requires m < c.cap && HandAt(c, s, m) && s'.hand == s.hand + 1
    ensures s.hand % c.cap == m && HandAt(c, s', m + 1)
  {
    NextHand(s.hand, c.cap);
  }

  /** From slot `m` on to the end of a round: slot 0 is left alone. */
  lemma HandRound<W>(c: Config<W>, s: State<W>)
    requires 0 < c.cap
    ensures HandAt(c, s, c.cap) <==> HandAt(c, s, 0)
  {
  }

  lemma {:induction false} RestOfRound<W(!new)>(
    c: Config<W>, calls: iset<Call<W>>, s: State<W>, from: nat, ws: seq<Row<W>>, r: Local<W>, m: nat)
    returns (s': State<W>)
    requires ValidConfig(c) && Staged(c, s, from, ws, r) && Planned(c, ws, calls) && s.len == c.cap
    requires 0 < m <= c.cap && c.cap - m <= |ws| && HandAt(c, s, m)
    ensures Reaches(c, calls, s, s') && Staged(c, s', from + (c.cap - m), ws[c.cap - m..], r)
    ensures s'.len == c.cap && HandAt(c, s', 0) && |s'.threads| == |s.threads| && |s'.slots| == |s.slots| > 0
    ensures s'.slots[0] == s.slots[0]
    decreases c.cap - m
  {
    hide Reaches, Staged, Adds, SlotIs, Planned, HandAt;
    StagedAt(c, s, from, ws, r, 0);
    if m == c.cap {
      HandRound(c, s);
      s' := s;
      ReachesSelf(c, calls, s);
      assert ws[0..] == ws;
    } else {
      PlannedAt(c, ws, calls);
      var s1 := TurnsOne(c, calls, s, from, ws, r);
      HandMoves(c, s, s1, m);
      AddsAt(c, s, s1, m, ws[0]);
      s' := RestOfRound(c, calls, s1, from + 1, ws[1..], r, m + 1);
      ReachesTwice(c, calls, s, s1, s');
      assert ws[1..][c.cap - m - 1..] == ws[c.cap - m..];
    }
  }

  /** A round: every slot is replaced, slot 0 by the first writer's entry. */
  lemma Round<W(!new)>(
    c: Config<W>, calls: iset<Call<W>>, s: State<W>, from: nat, ws: seq<Row<W>>, r: Local<W>) returns (s': State<W>)
    requires ValidConfig(c) && Staged(c, s, from, ws, r) && Planned(c, ws, calls) && s.len == c.cap <= |ws|
    requires HandAt(c, s, 0)
    ensures Reaches(c, calls, s, s') && Staged(c, s', from + c.cap, ws[c.cap..], r)
    ensures s'.len == c.cap && HandAt(c, s', 0) && |s'.threads| == |s.threads| && |s'.slots| == |s.slots| > 0
    ensures SlotIs(c, s', 0, s.slots[0].pubs + [ws[0]])
    ensures s'.slots[0].left == s.slots[0].left + [ByEviction(Whole(s.slots[0].words))]
  {
    hide Reaches, Staged, Adds, SlotIs, Planned, HandAt;
    StagedAt(c, s, from, ws, r, 0);
    PlannedAt(c, ws, calls);
    var s1 := TurnsOne(c, calls, s, from, ws, r);
    HandMoves(c, s, s1, 0);
    AddsAt(c, s, s1, 0, ws[0]);
    s' := RestOfRound(c, calls, s1, from + 1, ws[1..], r, 1);
    ReachesTwice(c, calls, s, s1, s');
    assert ws[1..][c.cap - 1..] == ws[c.cap..];
    SlotKept(c, s1, s', s.slots[0].pubs + [ws[0]]);
  }

  // ---- the last thread ----

  /** The last thread moves while the writers wait. */
  lemma Moves1<W(!new)>(
    c: Config<W>, calls: iset<Call<W>>, s: State<W>, from: nat, ws: seq<Row<W>>, r: Local<W>,
    call: Call<W>, r': Local<W>)
    returns (s': State<W>)
    requires ValidConfig(c) && Staged(c, s, from, ws, r) && call in calls && Fits(c, call)
    requires Goes(c, s, |s.threads| - 1, call, Go(s, |s.threads| - 1, r'))
    ensures s' == Go(s, |s.threads| - 1, r') && Reaches(c, calls, s, s') && Staged(c, s', from, ws, r')
  {
    hide Goes, Reaches, Fresh;
    s' := Go(s, |s.threads| - 1, r');
    GoesReaches(c, calls, s, |s.threads| - 1, call, s');
  }

  /** The stage set: slot 0 shows `ws[0]`, the shard is full, and the last thread is idle. */
  lemma SetsStage<W(!new)>(c: Config<W>, calls: iset<Call<W>>, ws: seq<Row<W>>) returns (s: State<W>)
    requires ValidConfig(c) && Planned(c, ws, calls) && c.cap <= |ws|
    ensures Reaches(c, calls, Init(c, |ws| + 1), s) && Staged(c, s, c.cap, ws[c.cap..], Idle)
    ensures s.len == c.cap && HandAt(c, s, 0) && |s.threads| == |ws| + 1 && SlotIs(c, s, 0, [ws[0]])
    ensures s.slots[0].left == []
  {
    hide Reaches, TagFor, Planned, SlotIs, RoundUp, Fresh;
    var start := ParksAll(c, calls, |ws| + 1, ws);
    CapFits(c);
    s := Fills(c, calls, start, 0, ws, Idle);
    ReachesTwice(c, calls, Init(c, |ws| + 1), start, s);
    assert start.slots[0].pubs + [ws[0]] == [ws[0]];
  }

  lemma CapFits<W>(c: Config<W>)
    requires ValidConfig(c)
    ensures c.cap <= RoundUp(c.cap)
  {
  }

  /** `n` times the same entry. */
  function Copies<W>(row: Row<W>, n: nat): (r: seq<Row<W>>)
    ensures |r| == n && forall j | 0 <= j < n :: r[j] == row
  {
    seq(n, _ => row)
  }

  /** A round of each entry in turn. */
  function Rounds<W>(xs: seq<Row<W>>, cap: nat): seq<Row<W>> {
    if xs == [] then [] else Copies(xs[0], cap) + Rounds(xs[1..], cap)
  }

  lemma {:induction false} RoundsPlanned<W(!new)>(c: Config<W>, xs: seq<Row<W>>, calls: iset<Call<W>>)
    requires Planned(c, xs, calls)
    ensures Planned(c, Rounds(xs, c.cap), calls)
  {
    if xs != [] { RoundsPlanned(c, xs[1..], calls); }
  }

  lemma OneRound<W>(x: Row<W>, cap: nat)
    requires 0 < cap
    ensures |Rounds([x], cap)| == cap && Rounds([x], cap)[0] == x
  {
  }

  lemma FirstRound<W>(xs: seq<Row<W>>, cap: nat)
    requires xs != [] && 0 < cap
    ensures cap <= |Rounds(xs, cap)| && Rounds(xs, cap)[0] == xs[0] && Rounds(xs, cap)[cap..] == Rounds(xs[1..], cap)
  {
  }
}

/**
 What becomes of each call of c12s while any number of others are under way: an insert
 that ends has published its entry once, and answers with what it displaced; a lookup
 answers only words that its slot showed since it began; and over a whole run the
 publications are the inserts that ended.
 */
module ClaimCalls {
  import opened Tags
  import opened Sieve
  import opened Counting
  import opened Claim
  import opened ClaimRuns
  import opened ClaimFinds

  // ---- one insert ----

  /**
   `row` was published at place `n` of slot `p`, after `s0`; `e` is what it displaced: the
   entry an eviction took out of the slot just before, or nothing.
   */
  ghost predicate Landed<W>(s0: State<W>, s: State<W>, p: nat, n: nat, row: Row<W>, e: Option<Row<W>>) {
    && p < |s0.slots| == |s.slots|
    && var pubs, left := s.slots[p].pubs, s.slots[p].left;
       && |s0.slots[p].pubs| <= n < |pubs| && pubs[n] == row && n <= |left|
       && (e.Some? ==> 0 < n && pubs[n - 1] == e.value && left[n - 1] == ByEviction(e))
       && (e.None? ==> n == 0 || left[n - 1] == ByUpdate)
  }

  /** The entry has landed somewhere. */
  ghost predicate Lands<W>(s0: State<W>, s: State<W>, row: Row<W>, e: Option<Row<W>>) {
    exists p: nat, n: nat :: Landed(s0, s, p, n, row, e)
  }

  /** Thread `i` is at the insert of `row`, not yet published; or has published it since `s0`. */
  ghost predicate Inserting<W>(s0: State<W>, s: State<W>, i: nat, row: Row<W>)
    requires i < |s.threads|
  {
    match s.threads[i]
    case Scan(call, _, _, _, _, _, _) => call == CallInsert(row)
    case UpdateLoad(r, _) => r == row
    case UpdateCas(r, _, _) => r == row
    case WarmLoad(r) => r == row
    case WarmCas(r, _) => r == row
    case Hand(r) => r == row
    case Sweeping(_, r, _, _) => r == row
    case Own(_, _, r, _, _, _, _) => r == row
    case UpdateVisit(_) => Lands(s0, s, row, None)
    case Finished(Inserted(e)) => Lands(s0, s, row, e)
    case _ => false
  }

  /** What has landed stays landed. */
  lemma LandedStays<W>(s0: State<W>, s: State<W>, s': State<W>, row: Row<W>, e: Option<Row<W>>)
    requires Lands(s0, s, row, e) && Grows(s, s')
    ensures Lands(s0, s', row, e)
  {
    var p: nat, n: nat :| Landed(s0, s, p, n, row, e);
    assert SameLeaves(s.slots[p].left, s'.slots[p].left);
    assert Landed(s0, s', p, n, row, e);
  }

  lemma GrowsOn<W>(a: State<W>, b: State<W>, d: State<W>)
    requires Grows(a, b) && Grows(b, d)
    ensures Grows(a, d)
  {
    forall p | 0 <= p < |a.slots|
      ensures a.slots[p].pubs <= d.slots[p].pubs && SameLeaves(a.slots[p].left, d.slots[p].left)
    {
      assert a.slots[p].pubs <= b.slots[p].pubs && SameLeaves(a.slots[p].left, b.slots[p].left);
      assert b.slots[p].pubs <= d.slots[p].pubs && SameLeaves(b.slots[p].left, d.slots[p].left);
    }
  }

  /** The publication lands the entry. */
  lemma PublishLands<W>(c: Config<W>, s0: State<W>, s: State<W>, i: nat)
    requires Inv(c, s) && i < |s.threads| && s.threads[i].Own? && s.threads[i].at.Publish? && Grows(s0, s)
    ensures var l, s' := s.threads[i], StepOwn(c, s, i);
      && |s'.threads| == |s.threads|
      && (if l.path.Updating? then s'.threads[i].UpdateVisit? && Lands(s0, s', l.row, None)
          else exists e :: s'.threads[i] == Finished(Inserted(e)) && Lands(s0, s', l.row, e))
  {
    hide TagFor, RoundUp, IdOf, LeavesOk, WordsOk;
    Here(c, s, i);
    var l := s.threads[i];
    var slot := At(s, l.pos);
    NothingLeft(c, l.pos, l.pos < s.len, slot);
    if l.path.Replacing? { ReturnSlot(c, l.pos, l.pos < s.len, slot, i, l); }
    var s', n := StepOwn(c, s, i), |slot.pubs|;
    var e := if l.path.Replacing? then Some(slot.pubs[n - 1]) else None;
    assert s0.slots[l.pos].pubs <= slot.pubs;
    assert Landed(s0, s', l.pos, n, l.row, e);
  }

  /** Every other step of the inserting thread. */
  lemma InsertGoesOn<W>(c: Config<W>, s0: State<W>, s: State<W>, i: nat, call: Call<W>, row: Row<W>)
    requires Inv(c, s) && i < |s.threads| && Inserting(s0, s, i, row) && !s.threads[i].Finished?
    requires s.threads[i].Own? ==> !s.threads[i].at.Publish?
    requires !s.threads[i].UpdateVisit?
    ensures var s' := Step(c, s, i, call); |s'.threads| == |s.threads| && Inserting(s0, s', i, row)
  {
    hide Inv, StepScan, StepClaim, StepOwn, Lands;
    Here0(c, s);
    match s.threads[i]
    case Scan(_, _, _, _, _, _, _) => InsertScans(c, s0, s, i, row);
    case Own(_, _, _, _, _, _, _) => InsertOwns(c, s, i);
    case _ => InsertClaims(c, s0, s, i, row);
  }

  lemma InsertScans<W>(c: Config<W>, s0: State<W>, s: State<W>, i: nat, row: Row<W>)
    requires ValidConfig(c) && i < |s.threads| && s.threads[i].Scan? && s.threads[i].call == CallInsert(row)
    ensures var s' := StepScan(c, s, i); |s'.threads| == |s.threads| && Inserting(s0, s', i, row)
  {
    hide TagFor, KeyOf, Live, Matches, NeedleFor, IdOf, Lands, Whole;
  }

  lemma InsertClaims<W>(c: Config<W>, s0: State<W>, s: State<W>, i: nat, row: Row<W>)
    requires ValidConfig(c) && i < |s.threads| && Inserting(s0, s, i, row)
    requires !s.threads[i].Scan? && !s.threads[i].Own? && !s.threads[i].Finished? && !s.threads[i].UpdateVisit?
    ensures var s' := StepClaim(c, s, i); |s'.threads| == |s.threads| && Inserting(s0, s', i, row)
  {
    hide TagFor, KeyOf, Live, Matches, NeedleFor, IdOf, Lands;
  }

  lemma InsertOwns<W>(c: Config<W>, s: State<W>, i: nat)
    requires ValidConfig(c) && i < |s.threads| && s.threads[i].Own? && !s.threads[i].at.Publish?
    ensures var s' := StepOwn(c, s, i);
      |s'.threads| == |s.threads| && s'.threads[i].Own? && s'.threads[i].row == s.threads[i].row
  {
  }

  lemma VisitEnds<W>(c: Config<W>, s: State<W>, i: nat, call: Call<W>)
    requires ValidConfig(c) && i < |s.threads| && s.threads[i].UpdateVisit?
    ensures var s' := Step(c, s, i, call);
      |s'.threads| == |s.threads| && s'.threads[i] == Finished(Inserted(None))
  {
  }

  /** One turn of any thread. */
  lemma InsertTurn<W>(c: Config<W>, s0: State<W>, s: State<W>, i: nat, row: Row<W>, j: nat, call: Call<W>)
    requires Inv(c, s) && Grows(s0, s) && i < |s.threads| && j < |s.threads| && Inserting(s0, s, i, row)
    requires j == i ==> !s.threads[i].Finished?
    ensures |Step(c, s, j, call).threads| == |s.threads| && Inserting(s0, Step(c, s, j, call), i, row)
  {
    hide Inv, Step, Grows, Lands;
    Here0(c, s);
    var s', l := Step(c, s, j, call), s.threads[i];
    StepGrows(c, s, j, call);
    if l.UpdateVisit? { LandedStays(s0, s, s', row, None); }
    if l.Finished? { LandedStays(s0, s, s', row, l.result.evicted); }
    if j != i {
      OthersStay(c, s, i, j, call);
    } else if l.UpdateVisit? {
      VisitEnds(c, s, i, call);
    } else if l.Own? && l.at.Publish? {
      PublishLands(c, s0, s, i);
      assert Step(c, s, i, call) == StepOwn(c, s, i) by { OwnSteps(c, s, i, call); }
    } else {
      InsertGoesOn(c, s0, s, i, call, row);
    }
  }

  lemma OwnSteps<W>(c: Config<W>, s: State<W>, i: nat, call: Call<W>)
    requires ValidConfig(c) && i < |s.threads| && s.threads[i].Own?
    ensures Step(c, s, i, call) == StepOwn(c, s, i)
  {
  }

  lemma {:induction false} InsertRuns<W>(
    c: Config<W>, s0: State<W>, s: State<W>, i: nat, row: Row<W>, sched: seq<Turn<W>>)
    requires Inv(c, s) && ValidConfig(c) && Grows(s0, s) && i < |s.threads| && Inserting(s0, s, i, row)
    requires Scheduled(c, sched, |s.threads|) && OneCall(c, s, i, sched)
    ensures Inserting(s0, Run(c, s, sched), i, row)
    decreases |sched|
  {
    hide Inv, Run, Step, Inserting, Grows;
    if sched == [] {
      RunEmpty(c, s, sched);
    } else {
      RunFirst(c, s, sched);
      var j, call := sched[0].thread, sched[0].call;
      var next := Step(c, s, j, call);
      StepKeeps(c, s, j, call);
      StepGrows(c, s, j, call);
      GrowsOn(s0, s, next);
      InsertTurn(c, s0, s, i, row, j, call);
      InsertRuns(c, s0, next, i, row, sched[1..]);
    }
  }

  lemma GrowsSelf<W>(s: State<W>)
    ensures Grows(s, s)
  {
  }

  /**
   However the other threads are scheduled, an insert that has its answer has published
   its entry since it began; it answers `Some(x)` exactly when `x` is the entry that an
   eviction took out of that slot just before, and `None` otherwise.
   */
  lemma InsertLands<W(!new)>(
    c: Config<W>, threads: nat, s: State<W>, i: nat, row: Row<W>, sched: seq<Turn<W>>)
    requires ValidConfig(c) && Reachable(c, threads, s) && i < threads == |s.threads|
    requires s.threads[i] == At0(CallInsert(row), 0)
    requires Scheduled(c, sched, threads) && OneCall(c, s, i, sched)
    ensures var s' := Run(c, s, sched); var l := s'.threads[i];
      l.Finished? ==> l.result.Inserted? && Lands(s, s', row, l.result.evicted)
  {
    hide Inv, Run, OneCall, Scheduled, Reachable, Grows, Lands;
    ReachableHolds(c, threads, s);
    GrowsSelf(s);
    InsertRuns(c, s, s, i, row, sched);
  }

  // ---- every insert publishes once ----

  /** The next step of thread `i` publishes. */
  ghost predicate Publishes<W>(s: State<W>, i: nat) {
    i < |s.threads| && s.threads[i].Own? && s.threads[i].at.Publish?
  }

  /** In how many of its turns thread `i` publishes. */
  ghost function Publications<W>(c: Config<W>, s: State<W>, sched: seq<Turn<W>>, i: nat): nat
    requires ValidConfig(c) && Scheduled(c, sched, |s.threads|)
    decreases |sched|
  {
    hide Step;
    if sched == [] then 0
    else
      RunFirst(c, s, sched);
      Publications(c, Step(c, s, sched[0].thread, sched[0].call), sched[1..], i) +
      if sched[0].thread == i && Publishes(s, i) then 1 else 0
  }

  /** The entry is published; at most the visited bit is left to set. */
  predicate Through<W>(l: Local<W>) { l.Finished? || l.UpdateVisit? }

  lemma ThroughTurn<W>(c: Config<W>, s0: State<W>, s: State<W>, i: nat, row: Row<W>, call: Call<W>)
    requires Inv(c, s) && i < |s.threads| && Inserting(s0, s, i, row) && !s.threads[i].Finished?
    ensures var l, s' := s.threads[i], Step(c, s, i, call);
      |s'.threads| == |s.threads| && (Through(s'.threads[i]) <==> Through(l) || Publishes(s, i))
    ensures Through(s.threads[i]) ==> !Publishes(s, i)
  {
    hide TagFor, KeyOf, Live, Matches, NeedleFor, IdOf, RoundUp, Lands, Whole, SlotOk;
    Here(c, s, i);
    if s.threads[i].Own? && !s.threads[i].at.Publish? { InsertOwns(c, s, i); }
  }

  /** An insert that has its answer has published exactly once in its turns, and no call publishes twice. */
  lemma InsertPublishesOnce<W(!new)>(
    c: Config<W>, threads: nat, s: State<W>, i: nat, row: Row<W>, sched: seq<Turn<W>>)
    requires ValidConfig(c) && Reachable(c, threads, s) && i < threads == |s.threads|
    requires s.threads[i] == At0(CallInsert(row), 0)
    requires Scheduled(c, sched, threads) && OneCall(c, s, i, sched)
    ensures Publications(c, s, sched, i) == if Through(Run(c, s, sched).threads[i]) then 1 else 0
  {
    hide Inv, Run, OneCall, Scheduled, Reachable, Grows, Publications;
    ReachableHolds(c, threads, s);
    GrowsSelf(s);
    PublicationsOf(c, s, s, i, row, sched);
  }

  lemma {:induction false} PublicationsOf<W>(
    c: Config<W>, s0: State<W>, s: State<W>, i: nat, row: Row<W>, sched: seq<Turn<W>>)
    requires Inv(c, s) && ValidConfig(c) && Grows(s0, s) && i < |s.threads| && Inserting(s0, s, i, row)
    requires Scheduled(c, sched, |s.threads|) && OneCall(c, s, i, sched)
    ensures Publications(c, s, sched, i) + (if Through(s.threads[i]) then 1 else 0) ==
            if Through(Run(c, s, sched).threads[i]) then 1 else 0
    decreases |sched|
  {
    hide Inv, Run, Step, Inserting, Grows, Through, Publishes;
    if sched == [] {
      RunEmpty(c, s, sched);
    } else {
      RunFirst(c, s, sched);
      var j, call := sched[0].thread, sched[0].call;
      var next := Step(c, s, j, call);
      StepKeeps(c, s, j, call);
      StepGrows(c, s, j, call);
      GrowsOn(s0, s, next);
      InsertTurn(c, s0, s, i, row, j, call);
      if j == i { ThroughTurn(c, s0, s, i, row, call); } else { OthersStay(c, s, i, j, call); }
      PublicationsOf(c, s0, next, i, row, sched[1..]);
    }
  }

  // ---- all publications are inserts that ended ----

  /** The step ends an insert. */
  ghost predicate Answers<W>(s: State<W>, s': State<W>, i: nat) {
    && i < |s.threads| == |s'.threads| && !s.threads[i].Finished?
    && s'.threads[i].Finished? && s'.threads[i].result.Inserted?
  }

  /** How many inserts end in these turns. */
  ghost function Answered<W>(c: Config<W>, s: State<W>, sched: seq<Turn<W>>): nat
    requires ValidConfig(c) && Scheduled(c, sched, |s.threads|)
    decreases |sched|
  {
    hide Step;
    if sched == [] then 0
    else
      RunFirst(c, s, sched);
      var next := Step(c, s, sched[0].thread, sched[0].call);
      Answered(c, next, sched[1..]) + if Answers(s, next, sched[0].thread) then 1 else 0
  }

  /** Threads that have published an update and have its visited bit to set. */
  ghost function Visiting<W>(s: State<W>): set<nat> {
    set i: nat | i < |s.threads| && s.threads[i].UpdateVisit?
  }

  lemma {:induction false} TallySame<W>(a: seq<Slot<W>>, b: seq<Slot<W>>)
    requires |a| == |b| && forall p | 0 <= p < |a| :: |a[p].pubs| == |b[p].pubs|
    ensures Tally(a).published == Tally(b).published
  {
    if a != [] { TallySame(a[1..], b[1..]); }
  }

  lemma {:induction false} TallyOne<W>(a: seq<Slot<W>>, b: seq<Slot<W>>, p: nat)
    requires p < |a| == |b| && |b[p].pubs| == |a[p].pubs| + 1
    requires forall q | 0 <= q < |a| && q != p :: |a[q].pubs| == |b[q].pubs|
    ensures Tally(b).published == Tally(a).published + 1
  {
    if p > 0 { TallyOne(a[1..], b[1..], p - 1); } else { TallySame(a[1..], b[1..]); }
  }

  /** A step adds one publication, or none. */
  lemma StepPublishes<W>(c: Config<W>, s: State<W>, i: nat, call: Call<W>)
    requires Inv(c, s) && i < |s.threads|
    ensures var s' := Step(c, s, i, call);
      Tally(s'.slots).published == Tally(s.slots).published + if Publishes(s, i) then 1 else 0
  {
    hide TagFor, RoundUp, IdOf, Inv, StepScan, StepClaim, StepOwn;
    Here(c, s, i);
    var s' := Step(c, s, i, call);
    match s.threads[i]
    case Scan(_, _, _, _, _, _, _) =>
      OwnWrites(c, s, i, 0);
      TallySame(s.slots, s'.slots);
    case Own(_, _, _, _, _, _, _) => OwnPublishes(c, s, i);
    case _ => ClaimPublishes(c, s, i, call);
  }

  lemma OwnPublishes<W>(c: Config<W>, s: State<W>, i: nat)
    requires Inv(c, s) && i < |s.threads| && s.threads[i].Own?
    ensures Tally(StepOwn(c, s, i).slots).published ==
            Tally(s.slots).published + if Publishes(s, i) then 1 else 0
  {
    hide TagFor, RoundUp, IdOf, Inv, SlotOk;
    Here(c, s, i);
    var s' := StepOwn(c, s, i);
    if Publishes(s, i) { TallyOne(s.slots, s'.slots, s.threads[i].pos); } else { TallySame(s.slots, s'.slots); }
  }

  lemma ClaimPublishes<W>(c: Config<W>, s: State<W>, i: nat, call: Call<W>)
    requires Inv(c, s) && i < |s.threads| && !s.threads[i].Own? && !s.threads[i].Scan?
    ensures Tally(Step(c, s, i, call).slots).published == Tally(s.slots).published
  {
    hide TagFor, RoundUp, IdOf, Inv, SlotOk, Matches, Live, NeedleFor;
    Here0(c, s);
    TallySame(s.slots, Step(c, s, i, call).slots);
  }

  /** An insert ends as it publishes, or one step later, with an update. */
  lemma StepAnswers<W>(c: Config<W>, s: State<W>, i: nat, call: Call<W>)
    requires Inv(c, s) && i < |s.threads|
    ensures var s' := Step(c, s, i, call);
      && |s'.threads| == |s.threads|
      && (if Publishes(s, i) then 1 else 0) + (if s.threads[i].UpdateVisit? then 1 else 0) ==
         (if Answers(s, s', i) then 1 else 0) + (if s'.threads[i].UpdateVisit? then 1 else 0)
  {
    hide Inv, StepScan, StepClaim, StepOwn;
    Here0(c, s);
    match s.threads[i]
    case Scan(_, _, _, _, _, _, _) => NoAnswer(c, s, i);
    case Own(_, _, _, _, _, _, _) => OwnAnswers(c, s, i);
    case _ => ClaimAnswers(c, s, i, call);
  }

  lemma NoAnswer<W>(c: Config<W>, s: State<W>, i: nat)
    requires ValidConfig(c) && i < |s.threads| && s.threads[i].Scan?
    ensures var s' := StepScan(c, s, i);
      |s'.threads| == |s.threads| && !Answers(s, s', i) && !s'.threads[i].UpdateVisit?
  {
    hide TagFor, IdOf, Matches, Live, NeedleFor, KeyOf, Whole;
  }

  lemma OwnAnswers<W>(c: Config<W>, s: State<W>, i: nat)
    requires Inv(c, s) && i < |s.threads| && s.threads[i].Own?
    ensures var s' := StepOwn(c, s, i);
      && |s'.threads| == |s.threads|
      && (if Publishes(s, i) then 1 else 0) ==
         (if Answers(s, s', i) then 1 else 0) + (if s'.threads[i].UpdateVisit? then 1 else 0)
  {
    hide TagFor, RoundUp, IdOf, SlotOk, KeyOf, Whole, Inv;
    Here(c, s, i);
  }

  lemma ClaimAnswers<W>(c: Config<W>, s: State<W>, i: nat, call: Call<W>)
    requires ValidConfig(c) && i < |s.threads| && !s.threads[i].Scan? && !s.threads[i].Own?
    ensures var s' := Step(c, s, i, call);
      && |s'.threads| == |s.threads| && !s'.threads[i].UpdateVisit?
      && (Answers(s, s', i) <==> s.threads[i].UpdateVisit?)
  {
    hide TagFor, IdOf, Matches, Live, NeedleFor, KeyOf;
  }

  lemma StepVisiting<W>(c: Config<W>, s: State<W>, i: nat, call: Call<W>)
    requires ValidConfig(c) && i < |s.threads|
    ensures var s' := Step(c, s, i, call);
      && |s'.threads| == |s.threads|
      && |Visiting(s')| + (if s.threads[i].UpdateVisit? then 1 else 0) ==
         |Visiting(s)| + if s'.threads[i].UpdateVisit? then 1 else 0
  {
    hide Step;
    SameThreads(c, s, i, call);
    var s' := Step(c, s, i, call);
    forall j | 0 <= j < |s.threads| && j != i ensures s'.threads[j] == s.threads[j] { OthersStay(c, s, j, i, call); }
    var rest := Visiting(s) - {i};
    assert Visiting(s) == if s.threads[i].UpdateVisit? then rest + {i} else rest;
    assert Visiting(s') == if s'.threads[i].UpdateVisit? then rest + {i} else rest;
  }

  lemma {:induction false} AnsweredOf<W>(c: Config<W>, s: State<W>, sched: seq<Turn<W>>)
    requires Inv(c, s) && ValidConfig(c) && Scheduled(c, sched, |s.threads|)
    ensures var s' := Run(c, s, sched);
      Tally(s'.slots).published + |Visiting(s)| ==
      Tally(s.slots).published + Answered(c, s, sched) + |Visiting(s')|
    decreases |sched|
  {
    hide Inv, Run, Step, Visiting, Tally, Answers, Publishes;
    if sched == [] {
      RunEmpty(c, s, sched);
    } else {
      RunFirst(c, s, sched);
      var i, call := sched[0].thread, sched[0].call;
      StepKeeps(c, s, i, call);
      StepPublishes(c, s, i, call);
      StepAnswers(c, s, i, call);
      StepVisiting(c, s, i, call);
      AnsweredOf(c, Step(c, s, i, call), sched[1..]);
    }
  }

  /**
   In every run, however many threads there are: the entries published are as many as the
   inserts that have ended, and the updates that have only their visited bit left to set.
   */
  lemma InsertsBalance<W>(c: Config<W>, threads: nat, sched: seq<Turn<W>>)
    requires ValidConfig(c) && Scheduled(c, sched, threads)
    ensures var start: State<W> := Init(c, threads);
      var s := Run(c, start, sched);
      Tally(s.slots).published == Answered(c, start, sched) + |Visiting(s)|
  {
    hide Inv, Run, Answered, RoundUp;
    var start: State<W> := Init(c, threads);
    InitHolds<W>(c, threads);
    AnsweredOf(c, start, sched);
    assert Visiting(start) == {};
    NoneYet(start.slots);
  }

  lemma {:induction false} NoneYet<W>(slots: seq<Slot<W>>)
    requires forall p | 0 <= p < |slots| :: slots[p].pubs == []
    ensures Tally(slots).published == 0
  {
    if slots != [] { NoneYet(slots[1..]); }
  }

  // ---- one lookup ----

  /** Word `j` of `row` was in slot `p` when `s0` was, or has been published there since. */
  ghost predicate SlotGave<W>(s0: State<W>, s: State<W>, p: nat, row: Row<W>, j: nat) {
    && p < |s0.slots| == |s.slots|
    && exists a: nat ::
         && |s0.slots[p].pubs| <= a + 1 && a < |s.slots[p].pubs|
         && j < |s.slots[p].pubs[a]| && j < |row| && s.slots[p].pubs[a][j] == row[j]
  }

  /** An entry whose key has the needle of `k` was in slot `p` when `s0` was, or was published there since. */
  ghost predicate SlotPosed<W>(c: Config<W>, s0: State<W>, s: State<W>, p: nat, k: Row<W>)
    requires ValidConfig(c)
  {
    && p < |s0.slots| == |s.slots|
    && exists a: nat ::
         && |s0.slots[p].pubs| <= a + 1 && a < |s.slots[p].pubs|
         && NeedleFor(c, KeyOf(c, s.slots[p].pubs[a])) == NeedleFor(c, k)
  }

  /** The value of an entry with key `k`, each word of which slot `p` gave since `s0`. */
  ghost predicate Answer<W>(c: Config<W>, s0: State<W>, s: State<W>, p: nat, k: Row<W>, row: Row<W>, v: Row<W>)
    requires ValidConfig(c)
  {
    && IsEntry(c, row) && KeyOf(c, row) == k && ValueOf(c, row) == v && SlotPosed(c, s0, s, p, k)
    && forall j: nat | j < Width(c) :: SlotGave(s0, s, p, row, j)
  }

  ghost predicate Answerable<W(!new)>(c: Config<W>, s0: State<W>, s: State<W>, k: Row<W>, v: Row<W>)
    requires ValidConfig(c)
  {
    exists p: nat, row: Row<W> :: Answer(c, s0, s, p, k, row, v)
  }

  /** Thread `i` is at the lookup of `k`, which began at `s0`. */
  ghost predicate Looking<W(!new)>(c: Config<W>, s0: State<W>, s: State<W>, i: nat, k: Row<W>)
    requires ValidConfig(c) && i < |s.threads|
  {
    match s.threads[i]
    case Scan(call, look, pos, _, n, _, _) =>
      call == CallGet(k) && (!look.LoadTag? ==> pos < |s0.slots| && |s0.slots[pos].pubs| <= n)
    case Touch(_, _, value) => value.Some? && Answerable(c, s0, s, k, value.value)
    case Finished(Got(value)) => value.Some? ==> Answerable(c, s0, s, k, value.value)
    case _ => false
  }

  lemma AnswerStays<W(!new)>(c: Config<W>, s0: State<W>, s: State<W>, s': State<W>, k: Row<W>, v: Row<W>)
    requires ValidConfig(c) && Answerable(c, s0, s, k, v) && Grows(s, s')
    ensures Answerable(c, s0, s', k, v)
  {
    hide NeedleFor, KeyOf, ValueOf;
    var p: nat, row: Row<W> :| Answer(c, s0, s, p, k, row, v);
    var a, b := s.slots[p].pubs, s'.slots[p].pubs;
    forall j: nat | j < Width(c) ensures SlotGave(s0, s', p, row, j) {
      assert SlotGave(s0, s, p, row, j);
      var m: nat :| |s0.slots[p].pubs| <= m + 1 && m < |a| && j < |a[m]| && a[m][j] == row[j];
      assert b[m] == a[m];
    }
    var m: nat :| |s0.slots[p].pubs| <= m + 1 && m < |a| && NeedleFor(c, KeyOf(c, a[m])) == NeedleFor(c, k);
    assert b[m] == a[m];
    assert Answer(c, s0, s', p, k, row, v);
  }

  /** A read that validates can be answered. */
  lemma ValidatedAnswers<W(!new)>(c: Config<W>, s0: State<W>, s: State<W>, i: nat, k: Row<W>)
    requires Inv(c, s) && Grows(s0, s) && Validates(s, i) && Looking(c, s0, s, i, k)
    ensures var row := Whole(s.threads[i].got);
      row.Some? && (KeyOf(c, row.value) == k ==> Answerable(c, s0, s, k, ValueOf(c, row.value)))
  {
    hide Inv, NeedleFor, KeyOf, ValueOf, Live, Answerable;
    Here0(c, s);
    WordsOfRead(c, s, i);
    var l := s.threads[i];
    var pubs := At(s, l.pos).pubs;
    forall j | 0 <= j < |l.got| ensures l.got[j].Some? {
      var a: nat :| l.n - 1 <= a < |pubs| && l.got[j] == Some(pubs[a][j]);
    }
    var row := Whole(l.got).value;
    if KeyOf(c, row) == k {
      forall j: nat | j < Width(c) ensures SlotGave(s0, s, l.pos, row, j) {
        var a: nat :| l.n - 1 <= a < |pubs| && l.got[j] == Some(pubs[a][j]);
        assert |s0.slots[l.pos].pubs| <= a + 1;
      }
      assert |s0.slots[l.pos].pubs| <= (l.n - 1) + 1;
      assert SlotPosed(c, s0, s, l.pos, k);
      assert Answer(c, s0, s, l.pos, k, row, ValueOf(c, row));
      AnswerIs(c, s0, s, l.pos, k, row);
    }
  }

  lemma AnswerIs<W(!new)>(c: Config<W>, s0: State<W>, s: State<W>, p: nat, k: Row<W>, row: Row<W>)
    requires ValidConfig(c) && Answer(c, s0, s, p, k, row, ValueOf(c, row))
    ensures Answerable(c, s0, s, k, ValueOf(c, row))
  {
  }

  lemma LookupGoesOn<W(!new)>(c: Config<W>, s0: State<W>, s: State<W>, i: nat, k: Row<W>, call: Call<W>)
    requires Inv(c, s) && Grows(s0, s) && i < |s.threads| && Looking(c, s0, s, i, k) && !s.threads[i].Finished?
    ensures var s' := Step(c, s, i, call); |s'.threads| == |s.threads| && Looking(c, s0, s', i, k)
  {
    hide TagFor, KeyOf, ValueOf, Matches, NeedleFor, IdOf, Inv, RoundUp, Answer, SlotOk, Whole;
    Here(c, s, i);
    var l, s' := s.threads[i], Step(c, s, i, call);
    StepGrows(c, s, i, call);
    if l.Touch? {
      AnswerStays(c, s0, s, s', k, l.value.value);
    } else if l.look.LoadTag? {
      if l.pos < |s.slots| { assert s0.slots[l.pos].pubs <= s.slots[l.pos].pubs; }
    } else if l.look.CheckTag? && At(s, l.pos).tag == l.t && Live(l.t) {
      ValidatedAnswers(c, s0, s, i, k);
      var row := Whole(l.got).value;
      if KeyOf(c, row) == k { AnswerStays(c, s0, s, s', k, ValueOf(c, row)); }
    }
  }

  lemma LookupTurn<W(!new)>(c: Config<W>, s0: State<W>, s: State<W>, i: nat, k: Row<W>, j: nat, call: Call<W>)
    requires Inv(c, s) && Grows(s0, s) && i < |s.threads| && j < |s.threads| && Looking(c, s0, s, i, k)
    requires j == i ==> !s.threads[i].Finished?
    ensures |Step(c, s, j, call).threads| == |s.threads| && Looking(c, s0, Step(c, s, j, call), i, k)
  {
    hide Inv, Step, Grows, Answerable;
    Here0(c, s);
    var s', l := Step(c, s, j, call), s.threads[i];
    StepGrows(c, s, j, call);
    if j == i {
      LookupGoesOn(c, s0, s, i, k, call);
    } else {
      OthersStay(c, s, i, j, call);
      if l.Touch? { AnswerStays(c, s0, s, s', k, l.value.value); }
      if l.Finished? && l.result.value.Some? { AnswerStays(c, s0, s, s', k, l.result.value.value); }
    }
  }

  lemma {:induction false} LookupRuns<W(!new)>(
    c: Config<W>, s0: State<W>, s: State<W>, i: nat, k: Row<W>, sched: seq<Turn<W>>)
    requires Inv(c, s) && ValidConfig(c) && Grows(s0, s) && i < |s.threads| && Looking(c, s0, s, i, k)
    requires Scheduled(c, sched, |s.threads|) && OneCall(c, s, i, sched)
    ensures Looking(c, s0, Run(c, s, sched), i, k)
    decreases |sched|
  {
    hide Inv, Run, Step, Looking, Grows;
    if sched == [] {
      RunEmpty(c, s, sched);
    } else {
      RunFirst(c, s, sched);
      var j, call := sched[0].thread, sched[0].call;
      var next := Step(c, s, j, call);
      StepKeeps(c, s, j, call);
      StepGrows(c, s, j, call);
      GrowsOn(s0, s, next);
      LookupTurn(c, s0, s, i, k, j, call);
      LookupRuns(c, s0, next, i, k, sched[1..]);
    }
  }

  /**
   However the other threads are scheduled, a lookup that answers `Some(v)` has found one
   slot, that had an entry of the key's needle when it began or was given one since, and
   each word of the key and of `v` is that word of an entry the slot had then or since.
   */
  lemma LookupAnswers<W(!new)>(
    c: Config<W>, threads: nat, s: State<W>, i: nat, k: Row<W>, sched: seq<Turn<W>>)
    requires ValidConfig(c) && Reachable(c, threads, s) && i < threads == |s.threads|
    requires s.threads[i] == At0(CallGet(k), 0)
    requires Scheduled(c, sched, threads) && OneCall(c, s, i, sched)
    ensures var s' := Run(c, s, sched); var l := s'.threads[i];
      l.Finished? ==> l.result.Got? && (l.result.value.Some? ==> Answerable(c, s, s', k, l.result.value.value))
  {
    hide Inv, Run, OneCall, Scheduled, Reachable, Grows, Answerable;
    ReachableHolds(c, threads, s);
    GrowsSelf(s);
    LookupRuns(c, s, s, i, k, sched);
  }
}

/**
 What the steps of c12s come to while threads compete: an eviction is from a full shard,
 a swap is lost only to another thread's claim, the hand moves on with every turn of
 `evict_one`, an insert keeps to the update path while its key stays in some slot, and a
 hit leaves its slot visited.
 */
module ClaimProgress {
  import opened Tags
  import opened Sieve
  import opened Claim
  import opened ClaimRuns
  import opened ClaimFinds

  // ---- an eviction is from a full shard ----

  /** A thread in `evict_one`, or in the slot it evicted from. */
  ghost predicate Evicts<W>(l: Local<W>) {
    l.Hand? || l.Sweeping? || (l.Own? && l.path.Replacing?)
  }

  ghost predicate FullFor<W>(c: Config<W>, s: State<W>, l: Local<W>) {
    (l.WarmCas? ==> l.cur <= s.len) && (Evicts(l) ==> s.len == c.cap)
  }

  ghost predicate AllFull<W>(c: Config<W>, s: State<W>) {
    forall i | 0 <= i < |s.threads| :: FullFor(c, s, s.threads[i])
  }

  lemma FullScan<W>(c: Config<W>, s: State<W>, i: nat)
    requires ValidConfig(c) && i < |s.threads| && s.threads[i].Scan?
    ensures var s' := StepScan(c, s, i);
      && |s'.threads| == |s.threads| && s'.len == s.len && !s'.threads[i].WarmCas? && !Evicts(s'.threads[i])
  {
    hide TagFor, IdOf, Matches, Live, NeedleFor, KeyOf, Whole;
  }

  lemma FullOwn<W>(c: Config<W>, s: State<W>, i: nat)
    requires ValidConfig(c) && i < |s.threads| && s.threads[i].Own?
    ensures var s' := StepOwn(c, s, i);
      && |s'.threads| == |s.threads| && s'.len == s.len && !s'.threads[i].WarmCas?
      && (Evicts(s'.threads[i]) ==> Evicts(s.threads[i]))
  {
    hide TagFor, IdOf, Whole, KeyOf;
  }

  lemma FullClaim<W>(c: Config<W>, s: State<W>, i: nat)
    requires ValidConfig(c) && i < |s.threads| && FullFor(c, s, s.threads[i]) && s.len <= c.cap
    requires !s.threads[i].Scan? && !s.threads[i].Own?
    ensures var s' := StepClaim(c, s, i);
      && |s'.threads| == |s.threads| && s.len <= s'.len && FullFor(c, s', s'.threads[i])
      && (s'.len != s.len ==> s.len < c.cap)
  {
    hide TagFor, IdOf, Matches, Live, NeedleFor, KeyOf;
  }

  lemma FullStep<W>(c: Config<W>, s: State<W>, i: nat, call: Call<W>)
    requires Inv(c, s) && i < |s.threads| && Fits(c, call) && FullFor(c, s, s.threads[i])
    ensures var s' := Step(c, s, i, call);
      && |s'.threads| == |s.threads| && s.len <= s'.len <= c.cap && FullFor(c, s', s'.threads[i])
  {
    hide Inv, StepScan, StepOwn, StepClaim;
    Here0(c, s);
    StepKeeps(c, s, i, call);
    Here0(c, Step(c, s, i, call));
    match s.threads[i]
    case Scan(_, _, _, _, _, _, _) => FullScan(c, s, i);
    case Own(_, _, _, _, _, _, _) => FullOwn(c, s, i);
    case _ => FullClaim(c, s, i);
  }

  lemma FullTurn<W>(c: Config<W>, s: State<W>, i: nat, call: Call<W>)
    requires Inv(c, s) && i < |s.threads| && Fits(c, call) && AllFull(c, s)
    ensures AllFull(c, Step(c, s, i, call))
  {
    hide Inv, Step;
    Here0(c, s);
    FullStep(c, s, i, call);
    var s' := Step(c, s, i, call);
    forall j | 0 <= j < |s'.threads| ensures FullFor(c, s', s'.threads[j]) {
      if j != i { OthersStay(c, s, j, i, call); }
    }
  }

  lemma {:induction false} FullRuns<W>(c: Config<W>, s: State<W>, sched: seq<Turn<W>>)
    requires Inv(c, s) && ValidConfig(c) && AllFull(c, s) && Scheduled(c, sched, |s.threads|)
    ensures AllFull(c, Run(c, s, sched))
    decreases |sched|
  {
    hide Inv, Run, Step, AllFull;
    if sched == [] {
      RunEmpty(c, s, sched);
    } else {
      RunFirst(c, s, sched);
      StepKeeps(c, s, sched[0].thread, sched[0].call);
      FullTurn(c, s, sched[0].thread, sched[0].call);
      FullRuns(c, Step(c, s, sched[0].thread, sched[0].call), sched[1..]);
    }
  }

  /** In every reachable state a thread that evicts has seen the shard full, and it still is. */
  lemma EvictsWhenFull<W(!new)>(c: Config<W>, threads: nat, s: State<W>, i: nat)
    requires ValidConfig(c) && Reachable(c, threads, s) && i < |s.threads|
    ensures Evicts(s.threads[i]) ==> s.len == c.cap
  {
    hide Inv, Run, AllFull;
    var sched :| Scheduled(c, sched, threads) && s == Run(c, Init(c, threads), sched);
    InitHolds<W>(c, threads);
    NoneEvicts<W>(c, threads);
    FullRuns(c, Init(c, threads), sched);
    FullAt(c, s, i);
  }

  lemma NoneEvicts<W>(c: Config<W>, threads: nat)
    requires ValidConfig(c)
    ensures AllFull<W>(c, Init(c, threads))
  {
  }

  lemma FullAt<W>(c: Config<W>, s: State<W>, i: nat)
    requires AllFull(c, s) && i < |s.threads|
    ensures Evicts(s.threads[i]) ==> s.len == c.cap
  {
  }

  // ---- a swap is lost to a claim only ----

  /**
   A compare-and-swap on a tag that was live when it was loaded fails only if the slot was
   claimed since: some other thread's swap succeeded. While no one claims it, it succeeds.
   */
  lemma LostToAClaim<W(!new)>(
    c: Config<W>, threads: nat, s: State<W>, sched: seq<Turn<W>>, pos: nat)
    requires ValidConfig(c) && Reachable(c, threads, s) && Scheduled(c, sched, threads) && threads == |s.threads|
    requires pos < |s.slots| && s.slots[pos].tag != EMPTY
    ensures var s' := Run(c, s, sched);
      && |s'.slots| == |s.slots| && |s.slots[pos].left| <= |s'.slots[pos].left|
      && (s'.slots[pos].tag != s.slots[pos].tag ==> |s.slots[pos].left| < |s'.slots[pos].left|)
  {
    hide Inv, Run, Reachable, Scheduled, RoundUp, TagFor;
    ReachableHolds(c, threads, s);
    RunKeeps(c, s, sched);
    RunGrows(c, s, sched);
    var s' := Run(c, s, sched);
    Counts(c, s, pos);
    Counts(c, s', pos);
    assert s.slots[pos].pubs <= s'.slots[pos].pubs && SameLeaves(s.slots[pos].left, s'.slots[pos].left);
  }

  // ---- the hand moves on ----

  /** Turns left in the present turn of the hand. */
  function TurnLeft<W>(l: Local<W>): nat {
    if !l.Sweeping? then 0
    else match l.turn case SeeTag => 3 case TestBit => 2 case DropBit => 1 case CasTag => 1
  }

  /** Thread `i` is in `evict_one` before each of these turns. */
  ghost predicate Sweeps<W>(c: Config<W>, s: State<W>, i: nat, sched: seq<Turn<W>>)
    requires ValidConfig(c) && Scheduled(c, sched, |s.threads|) && i < |s.threads|
    decreases |sched|
  {
    hide Step;
    sched == [] ||
    (RunFirst(c, s, sched);
     && (s.threads[i].Hand? || s.threads[i].Sweeping?)
     && Sweeps(c, Step(c, s, sched[0].thread, sched[0].call), i, sched[1..]))
  }

  lemma HandStep<W>(c: Config<W>, s: State<W>, j: nat, call: Call<W>)
    requires ValidConfig(c) && j < |s.threads|
    ensures var s' := Step(c, s, j, call);
      && |s'.threads| == |s.threads|
      && s'.hand == s.hand + (if s.threads[j].Hand? then 1 else 0)
      && (s.threads[j].Hand? || s.threads[j].Sweeping? ==>
            1 + TurnLeft(s'.threads[j]) <= 4 * (s'.hand - s.hand) + TurnLeft(s.threads[j]))
  {
    hide TagFor, IdOf, Matches, Live, NeedleFor, KeyOf, Whole;
  }

  /**
   While a thread is in `evict_one` the hand advances at least once in four of its turns,
   whatever it finds and however many swaps it loses.
   */
  lemma {:induction false} HandMovesOn<W>(c: Config<W>, s: State<W>, i: nat, sched: seq<Turn<W>>)
    requires ValidConfig(c) && i < |s.threads| && Scheduled(c, sched, |s.threads|) && Sweeps(c, s, i, sched)
    ensures var s' := Run(c, s, sched);
      TurnsOf(sched, i) + TurnLeft(s'.threads[i]) <= 4 * (s'.hand - s.hand) + TurnLeft(s.threads[i])
    decreases |sched|
  {
    hide Run, Step, TurnLeft;
    if sched == [] {
      RunEmpty(c, s, sched);
    } else {
      RunFirst(c, s, sched);
      var j, call := sched[0].thread, sched[0].call;
      HandStep(c, s, j, call);
      if j != i { OthersStay(c, s, i, j, call); }
      HandMovesOn(c, Step(c, s, j, call), i, sched[1..]);
    }
  }

  // ---- an insert keeps to the update path ----

  /** Thread `i` inserts `row` and has not gone past slot `p`, or it updates a slot. */
  ghost predicate Updates<W>(s: State<W>, i: nat, p: nat, row: Row<W>)
    requires i < |s.threads|
  {
    match s.threads[i]
    case Scan(call, look, pos, t, n, _, _) =>
      && call == CallInsert(row) && pos <= p
      && (pos == p && !look.LoadTag? ==> t == At(s, p).tag && n == |At(s, p).pubs|)
    case UpdateLoad(r, _) => r == row
    case UpdateCas(r, _, _) => r == row
    case UpdateVisit(_) => true
    case Own(path, at, r, _, _, _, _) => path.Updating? && r == row && (at.WriteWord? || at.Publish?)
    case Finished(Inserted(e)) => e.None?
    case _ => false
  }

  lemma UpdaterSteps<W>(c: Config<W>, s: State<W>, i: nat, call: Call<W>, p: nat, row: Row<W>)
    requires Inv(c, s) && i < |s.threads| && Shows(c, s, p, KeyOf(c, row)) && Updates(s, i, p, row)
    requires !s.threads[i].Finished?
    requires var s' := Step(c, s, i, call); p < |s'.slots| && s'.slots[p].pubs == s.slots[p].pubs
    requires Step(c, s, i, call).slots[p].tag == s.slots[p].tag && |Step(c, s, i, call).threads| == |s.threads|
    ensures Updates(Step(c, s, i, call), i, p, row)
  {
    hide TagFor, KeyOf, Live, Matches, NeedleFor, IdOf, Inv, RoundUp, Whole;
    Counts(c, s, p);
    var l := s.threads[i];
    if l.Scan? && l.pos == p && l.look.CheckTag? {
      QuietRead(c, s, i);
      WholeSomes(s.slots[p].pubs[|s.slots[p].pubs| - 1]);
    }
  }

  lemma UpdaterWaits<W>(c: Config<W>, s: State<W>, i: nat, j: nat, call: Call<W>, p: nat, row: Row<W>)
    requires ValidConfig(c) && i < |s.threads| && j < |s.threads| && i != j && Updates(s, i, p, row) && p < |s.slots|
    requires var s' := Step(c, s, j, call);
      && |s'.threads| == |s.threads| && p < |s'.slots|
      && s'.slots[p].pubs == s.slots[p].pubs && s'.slots[p].tag == s.slots[p].tag
    ensures Updates(Step(c, s, j, call), i, p, row)
  {
    hide Step;
    OthersStay(c, s, i, j, call);
  }

  lemma {:induction false} UpdaterRuns<W>(
    c: Config<W>, s: State<W>, i: nat, row: Row<W>, p: nat, sched: seq<Turn<W>>)
    requires Inv(c, s) && ValidConfig(c) && i < |s.threads| && Shows(c, s, p, KeyOf(c, row)) && Updates(s, i, p, row)
    requires Scheduled(c, sched, |s.threads|) && OneCall(c, s, i, sched)
    requires var s' := Run(c, s, sched); p < |s'.slots| && |s'.slots[p].left| == |s.slots[p].left|
    ensures Updates(Run(c, s, sched), i, p, row)
    decreases |sched|
  {
    hide Inv, Run, Step, Updates, Shows;
    if sched == [] {
      RunEmpty(c, s, sched);
    } else {
      RunFirst(c, s, sched);
      var j, call := sched[0].thread, sched[0].call;
      var next := Step(c, s, j, call);
      StepKeeps(c, s, j, call);
      StepGrows(c, s, j, call);
      RunGrows(c, next, sched[1..]);
      assert p < |s.slots| by { ShowsIn(c, s, p, KeyOf(c, row)); }
      assert SameLeaves(s.slots[p].left, next.slots[p].left);
      assert SameLeaves(next.slots[p].left, Run(c, next, sched[1..]).slots[p].left);
      Stays(c, s, j, call, p, KeyOf(c, row));
      if j == i { UpdaterSteps(c, s, i, call, p, row); } else { UpdaterWaits(c, s, i, j, call, p, row); }
      UpdaterRuns(c, next, i, row, p, sched[1..]);
    }
  }

  /** The thread has left the update path, to take a new slot or to evict. */
  ghost predicate Displaces<W>(l: Local<W>) {
    l.WarmLoad? || l.WarmCas? || Evicts(l) || (l.Own? && l.path.Warming?)
  }

  /**
   While some slot shows the key from an insert's first step on and nobody claims that
   slot, the insert neither takes a new slot nor evicts, whatever swaps it loses elsewhere:
   it makes no second copy of a key that stays where it is.
   */
  lemma InsertUpdates<W(!new)>(
    c: Config<W>, threads: nat, s: State<W>, i: nat, row: Row<W>, p: nat, sched: seq<Turn<W>>)
    requires ValidConfig(c) && Reachable(c, threads, s) && i < threads == |s.threads|
    requires s.threads[i] == At0(CallInsert(row), 0) && Shows(c, s, p, KeyOf(c, row))
    requires Scheduled(c, sched, threads) && OneCall(c, s, i, sched)
    requires var s' := Run(c, s, sched); p < |s'.slots| && |s'.slots[p].left| == |s.slots[p].left|
    ensures var l := Run(c, s, sched).threads[i];
      !Displaces(l) && (l.Finished? ==> l.result == Inserted(None))
  {
    hide Inv, Run, OneCall, Scheduled, Reachable, KeyOf;
    ReachableHolds(c, threads, s);
    UpdaterRuns(c, s, i, row, p, sched);
  }

  // ---- an insert that evicts ends by evicting ----

  /** Off the update path a step stays off it, and an eviction stays one, up to the answer. */
  lemma DisplacerStep<W>(c: Config<W>, s: State<W>, i: nat, call: Call<W>)
    requires Inv(c, s) && i < |s.threads| && Displaces(s.threads[i])
    ensures var l, s' := s.threads[i], Step(c, s, i, call);
      && |s'.threads| == |s.threads|
      && (Displaces(s'.threads[i]) || s'.threads[i].Finished?)
      && (Evicts(l) && !s'.threads[i].Finished? ==> Evicts(s'.threads[i]))
      && (s'.threads[i].Finished? ==>
            && s'.threads[i].result.Inserted?
            && (s'.threads[i].result.evicted.Some? <==> Evicts(l)))
  {
    hide TagFor, IdOf, Matches, Live, NeedleFor, RoundUp, KeyOf, Inv, SlotOk, LeavesOk, WordsOk;
    Here(c, s, i);
    var l := s.threads[i];
    if l.Own? && l.at.Publish? && l.path.Replacing? {
      ReturnSlot(c, l.pos, l.pos < s.len, At(s, l.pos), i, l);
    }
  }

  /**
   Whatever swaps it loses, an insert that has found no copy of its key does not look for
   one again; and one that has seen the shard full ends with the entry it evicted.
   */
  lemma {:induction false} DisplacesToEnd<W>(c: Config<W>, s: State<W>, i: nat, sched: seq<Turn<W>>)
    requires Inv(c, s) && ValidConfig(c) && i < |s.threads| && Displaces(s.threads[i])
    requires Scheduled(c, sched, |s.threads|) && OneCall(c, s, i, sched)
    ensures var l, l' := s.threads[i], Run(c, s, sched).threads[i];
      if l'.Finished? then l'.result.Inserted? && (Evicts(l) ==> l'.result.evicted.Some?)
      else Displaces(l') && (Evicts(l) ==> Evicts(l'))
    decreases |sched|
  {
    hide Inv, Run, Step, Displaces, Evicts;
    NotFinished(s.threads[i]);
    if sched == [] {
      RunEmpty(c, s, sched);
    } else {
      RunFirst(c, s, sched);
      var j, call := sched[0].thread, sched[0].call;
      var next := Step(c, s, j, call);
      StepKeeps(c, s, j, call);
      if j == i { DisplacerStep(c, s, i, call); } else { OthersStay(c, s, i, j, call); }
      if next.threads[i].Finished? {
        AnswerStands(c, next, i, sched[1..]);
      } else {
        DisplacesToEnd(c, next, i, sched[1..]);
      }
    }
  }

  lemma NotFinished<W>(l: Local<W>)
    requires Displaces(l)
    ensures !l.Finished?
  {
  }

  /** An answer stands while the thread has no further turn. */
  lemma {:induction false} AnswerStands<W>(c: Config<W>, s: State<W>, i: nat, sched: seq<Turn<W>>)
    requires ValidConfig(c) && i < |s.threads| && s.threads[i].Finished?
    requires Scheduled(c, sched, |s.threads|) && OneCall(c, s, i, sched)
    ensures Run(c, s, sched).threads[i] == s.threads[i]
    decreases |sched|
  {
    hide Run, Step;
    if sched == [] {
      RunEmpty(c, s, sched);
    } else {
      RunFirst(c, s, sched);
      OthersStay(c, s, i, sched[0].thread, sched[0].call);
      AnswerStands(c, Step(c, s, sched[0].thread, sched[0].call), i, sched[1..]);
    }
  }

  // ---- a hit leaves its slot visited ----

  /** As a lookup answers, or an update ends, its slot is visited. */
  lemma HitMarks<W>(c: Config<W>, s: State<W>, i: nat, call: Call<W>)
    requires Inv(c, s) && i < |s.threads| && (s.threads[i].Touch? || s.threads[i].UpdateVisit?)
    ensures var pos, s' := PosOf(s.threads[i]), Step(c, s, i, call);
      && pos < |s'.slots| && |s'.threads| == |s.threads|
      && (s'.threads[i].Finished? ==> s'.slots[pos].visited)
      && (s'.threads[i].Finished? || s'.threads[i] == Touch(true, pos, s.threads[i].value))
  {
    hide TagFor, IdOf, Matches, Live, NeedleFor, RoundUp, KeyOf, Inv, SlotOk;
    Here(c, s, i);
  }

  /** From its last word on, undisturbed, a new entry is published unvisited, whatever the bit was. */
  lemma PublishesUnvisited<W>(c: Config<W>, s: State<W>, i: nat, call: Call<W>)
    requires Inv(c, s) && i < |s.threads| && s.threads[i].Own? && !s.threads[i].path.Updating?
    requires s.threads[i].at.WriteWord? && s.threads[i].m + 1 == |c.orders.write|
    ensures var l, s' := s.threads[i], Alone(c, s, i, call, 3);
      && l.pos < |s.slots| == |s'.slots|
      && s'.slots[l.pos].tag != EMPTY && !s'.slots[l.pos].visited
      && s'.slots[l.pos].pubs == s.slots[l.pos].pubs + [l.row]
  {
    hide TagFor, IdOf, Matches, Live, NeedleFor, RoundUp, KeyOf, Inv, SlotOk, Whole;
    Here(c, s, i);
    var l := s.threads[i];
    var s1 := Step(c, s, i, call);
    assert s1.threads[i] == l.(at := ClearBit, m := l.m + 1);
    var s2 := Step(c, s1, i, call);
    assert s2.threads[i] == l.(at := Publish, m := l.m + 1) && !s2.slots[l.pos].visited;
    var s3 := Step(c, s2, i, call);
    hide Step;
    assert Alone(c, s, i, call, 3) == Alone(c, s1, i, call, 2) == Alone(c, s2, i, call, 1) == Alone(c, s3, i, call, 0);
  }
}

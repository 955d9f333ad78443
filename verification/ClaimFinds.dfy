/**
 What a lookup of c12s is sure of while other threads work: it ends after so many turns of
 its own, and it finds a key that stays in its slot from its first step to its last.
 */
module ClaimFinds {
  import opened Tags
  import opened Sieve
  import opened Claim
  import opened ClaimRuns

  /** In these turns thread `i` makes at most one call: it has no turn once it has an answer. */
  ghost predicate OneCall<W>(c: Config<W>, s: State<W>, i: nat, sched: seq<Turn<W>>)
    requires ValidConfig(c) && Scheduled(c, sched, |s.threads|) && i < |s.threads|
    decreases |sched|
  {
    sched == [] ||
    (RunFirst(c, s, sched);
     && (sched[0].thread == i ==> !s.threads[i].Finished?)
     && OneCall(c, Step(c, s, sched[0].thread, sched[0].call), i, sched[1..]))
  }

  // ---- it finds what stays ----

  /** Slot `p` shows `k`. */
  ghost predicate Shows<W>(c: Config<W>, s: State<W>, p: nat, k: Row<W>) {
    && p < |s.slots| && s.slots[p].tag != EMPTY && s.slots[p].pubs != []
    && KeyOf(c, s.slots[p].pubs[|s.slots[p].pubs| - 1]) == k
  }

  /** Thread `i` looks `k` up and has not passed slot `p`, or has found something already. */
  ghost predicate Seeks<W>(s: State<W>, i: nat, p: nat, k: Row<W>)
    requires i < |s.threads|
  {
    match s.threads[i]
    case Scan(call, look, pos, t, n, _, _) =>
      && call == CallGet(k) && pos <= p
      && (pos == p && !look.LoadTag? ==> t == At(s, p).tag && n == |At(s, p).pubs|)
    case Touch(_, _, value) => value.Some?
    case Finished(Got(value)) => value.Some?
    case _ => false
  }

  /** A step that claims nothing in slot `p` leaves what it shows. */
  lemma Stays<W>(c: Config<W>, s: State<W>, j: nat, call: Call<W>, p: nat, k: Row<W>)
    requires Inv(c, s) && j < |s.threads| && Fits(c, call) && Shows(c, s, p, k)
    requires var s' := Step(c, s, j, call); p < |s'.slots| && |s'.slots[p].left| == |s.slots[p].left|
    ensures var s' := Step(c, s, j, call);
      && Shows(c, s', p, k) && s'.slots[p].pubs == s.slots[p].pubs && s'.slots[p].tag == s.slots[p].tag
  {
    Here0(c, s);
    hide Step, Inv, RoundUp;
    var s' := Step(c, s, j, call);
    StepKeeps(c, s, j, call);
    StepGrows(c, s, j, call);
    Counts(c, s, p);
    Counts(c, s', p);
    assert s.slots[p].pubs <= s'.slots[p].pubs;
  }

  lemma Counts<W>(c: Config<W>, s: State<W>, p: nat)
    requires Inv(c, s) && p < |s.slots|
    ensures var slot := s.slots[p];
      && |slot.pubs| == |slot.left| + (if slot.tag != EMPTY then 1 else 0)
      && (slot.tag != EMPTY ==>
            p < c.cap && slot.pubs != [] && slot.tag == TagFor(c, p, KeyOf(c, slot.pubs[|slot.pubs| - 1])))
  {
    hide TagFor, KeyOf, LeavesOk, WordsOk, ThreadOk, RoundUp;
    assert SlotOk(c, p, p < s.len, s.slots[p]);
  }

  /** The seeker's own step: it cannot pass the slot. */
  lemma SeekerSteps<W>(c: Config<W>, s: State<W>, i: nat, call: Call<W>, p: nat, k: Row<W>)
    requires Inv(c, s) && i < |s.threads| && Shows(c, s, p, k) && Seeks(s, i, p, k) && !s.threads[i].Finished?
    requires var s' := Step(c, s, i, call); p < |s'.slots| && s'.slots[p].pubs == s.slots[p].pubs
    requires Step(c, s, i, call).slots[p].tag == s.slots[p].tag && |Step(c, s, i, call).threads| == |s.threads|
    ensures Seeks(Step(c, s, i, call), i, p, k)
  {
    hide TagFor, KeyOf, Live, Matches, NeedleFor, IdOf, Inv, RoundUp;
    Counts(c, s, p);
    var l := s.threads[i];
    if l.Scan? && l.pos == p && l.look.CheckTag? {
      QuietRead(c, s, i);
      WholeSomes(s.slots[p].pubs[|s.slots[p].pubs| - 1]);
    }
  }

  /**
   If a slot shows the key from a lookup's first step to its last and nobody claims it in
   between, the lookup answers with some value, whatever the other threads do.
   */
  lemma LookupFinds<W(!new)>(
    c: Config<W>, threads: nat, s: State<W>, i: nat, k: Row<W>, p: nat, sched: seq<Turn<W>>)
    requires ValidConfig(c) && Reachable(c, threads, s) && i < threads == |s.threads|
    requires s.threads[i] == At0(CallGet(k), 0) && Shows(c, s, p, k)
    requires Scheduled(c, sched, threads) && OneCall(c, s, i, sched)
    requires var s' := Run(c, s, sched); p < |s'.slots| && |s'.slots[p].left| == |s.slots[p].left|
    ensures var l := Run(c, s, sched).threads[i];
      l.Finished? ==> l.result.Got? && l.result.value.Some?
  {
    hide Inv, Run, OneCall, Scheduled, Reachable, KeyOf;
    ReachableHolds(c, threads, s);
    SeekerArrives(c, s, i, k, p, sched);
  }

  lemma {:induction false} SeekerArrives<W>(
    c: Config<W>, s: State<W>, i: nat, k: Row<W>, p: nat, sched: seq<Turn<W>>)
    requires Inv(c, s) && ValidConfig(c) && i < |s.threads| && Shows(c, s, p, k) && Seeks(s, i, p, k)
    requires Scheduled(c, sched, |s.threads|) && OneCall(c, s, i, sched)
    requires var s' := Run(c, s, sched); p < |s'.slots| && |s'.slots[p].left| == |s.slots[p].left|
    ensures Seeks(Run(c, s, sched), i, p, k)
    decreases |sched|
  {
    hide Inv, Run, Step, Seeks, Shows;
    if sched == [] {
      RunEmpty(c, s, sched);
    } else {
      RunFirst(c, s, sched);
      var j, call := sched[0].thread, sched[0].call;
      var next := Step(c, s, j, call);
      StepKeeps(c, s, j, call);
      StepGrows(c, s, j, call);
      RunGrows(c, next, sched[1..]);
      assert p < |s.slots| by { ShowsIn(c, s, p, k); }
      assert SameLeaves(s.slots[p].left, next.slots[p].left);
      assert SameLeaves(next.slots[p].left, Run(c, next, sched[1..]).slots[p].left);
      Stays(c, s, j, call, p, k);
      if j == i { SeekerSteps(c, s, i, call, p, k); } else { SeekerWaits(c, s, i, j, call, p, k); }
      SeekerArrives(c, next, i, k, p, sched[1..]);
    }
  }

  lemma ShowsIn<W>(c: Config<W>, s: State<W>, p: nat, k: Row<W>)
    requires Shows(c, s, p, k)
    ensures p < |s.slots|
  {
  }

  lemma SeekerWaits<W>(c: Config<W>, s: State<W>, i: nat, j: nat, call: Call<W>, p: nat, k: Row<W>)
    requires ValidConfig(c) && i < |s.threads| && j < |s.threads| && i != j && Seeks(s, i, p, k) && p < |s.slots|
    requires var s' := Step(c, s, j, call);
      && |s'.threads| == |s.threads| && p < |s'.slots|
      && s'.slots[p].pubs == s.slots[p].pubs && s'.slots[p].tag == s.slots[p].tag
    ensures Seeks(Step(c, s, j, call), i, p, k)
  {
    hide Step;
    OthersStay(c, s, i, j, call);
  }

  /** A thread is where it was after another one's step. */
  lemma OthersStay<W>(c: Config<W>, s: State<W>, i: nat, j: nat, call: Call<W>)
    requires ValidConfig(c) && i < |s.threads| && j < |s.threads| && i != j
    ensures |Step(c, s, j, call).threads| == |s.threads| && |Step(c, s, j, call).slots| == |s.slots|
    ensures Step(c, s, j, call).threads[i] == s.threads[i]
  {
    hide StepScan, StepClaim, StepOwn;
    OthersScanOrOwn(c, s, i, j);
    OthersClaim(c, s, i, j);
  }

  lemma OthersScanOrOwn<W>(c: Config<W>, s: State<W>, i: nat, j: nat)
    requires ValidConfig(c) && i < |s.threads| && j < |s.threads| && i != j
    ensures s.threads[j].Scan? ==>
      var s' := StepScan(c, s, j);
      |s'.threads| == |s.threads| && |s'.slots| == |s.slots| && s'.threads[i] == s.threads[i]
    ensures s.threads[j].Own? ==>
      var s' := StepOwn(c, s, j);
      |s'.threads| == |s.threads| && |s'.slots| == |s.slots| && s'.threads[i] == s.threads[i]
  {
    hide Matches, IdOf, Live, TagFor, NeedleFor, KeyOf, Whole;
  }

  lemma OthersClaim<W>(c: Config<W>, s: State<W>, i: nat, j: nat)
    requires ValidConfig(c) && i < |s.threads| && j < |s.threads| && i != j
    ensures var s' := StepClaim(c, s, j);
      |s'.threads| == |s.threads| && |s'.slots| == |s.slots| && s'.threads[i] == s.threads[i]
  {
    hide Matches, IdOf, Live, TagFor, NeedleFor, KeyOf;
  }

  // ---- it ends ----

  /** The turns for the positions from `pos` on: the tag, the words, the tag again. */
  ghost function Ahead<W>(c: Config<W>, n: nat, pos: nat): nat
    decreases n - pos
  {
    if pos >= n then 0 else |c.orders.get| + 2 + Ahead(c, n, pos + 1)
  }

  /** How many turns of its own a lookup may still take, over a tag array of `n`. */
  ghost function TurnsToGo<W>(c: Config<W>, n: nat, l: Local<W>): int {
    match l
    case Scan(_, look, pos, _, _, m, _) =>
      if look.LoadTag? then Ahead(c, n, pos) + 3
      else if look.ReadWord? then Ahead(c, n, pos + 1) + |c.orders.get| - m + 4
      else Ahead(c, n, pos + 1) + 4
    case Touch(marking, _, _) => if marking then 1 else 2
    case _ => 0
  }

  /** A lookup on its way, with the words it has to read ahead of it. */
  ghost predicate LookingUp<W>(c: Config<W>, n: nat, l: Local<W>) {
    match l
    case Scan(call, look, pos, _, _, m, _) =>
      call.CallGet? && pos <= n && (look.LoadTag? || pos < n) && (look.ReadWord? ==> m < |c.orders.get|)
    case Touch(_, _, _) => true
    case Finished(_) => true
    case _ => false
  }

  lemma TurnCounts<W>(c: Config<W>, s: State<W>, i: nat, call: Call<W>)
    requires ValidConfig(c) && i < |s.threads| && LookingUp(c, |s.slots|, s.threads[i]) && !s.threads[i].Finished?
    ensures var s' := Step(c, s, i, call);
      && |s'.threads| == |s.threads| && |s'.slots| == |s.slots| && LookingUp(c, |s'.slots|, s'.threads[i])
      && TurnsToGo(c, |s.slots|, s'.threads[i]) < TurnsToGo(c, |s.slots|, s.threads[i])
  {
    hide TagFor, KeyOf, Live, Matches, NeedleFor, IdOf, Covers, RoundUp;
    OrderStarts(c);
  }

  lemma NotBelowZero<W>(c: Config<W>, n: nat, l: Local<W>)
    requires LookingUp(c, n, l)
    ensures 0 <= TurnsToGo(c, n, l) && (!l.Finished? ==> 0 < TurnsToGo(c, n, l))
  {
  }

  /** However the others are scheduled, a lookup takes no more turns of its own than that. */
  lemma {:induction false} LookupEnds<W>(c: Config<W>, s: State<W>, i: nat, sched: seq<Turn<W>>)
    requires ValidConfig(c) && i < |s.threads| && LookingUp(c, |s.slots|, s.threads[i])
    requires Scheduled(c, sched, |s.threads|) && OneCall(c, s, i, sched)
    ensures TurnsOf(sched, i) <= TurnsToGo(c, |s.slots|, s.threads[i])
    ensures TurnsOf(sched, i) == TurnsToGo(c, |s.slots|, s.threads[i]) ==> Run(c, s, sched).threads[i].Finished?
    decreases |sched|
  {
    hide Run, Step, TurnsToGo, LookingUp;
    NotBelowZero(c, |s.slots|, s.threads[i]);
    if sched == [] {
      RunEmpty(c, s, sched);
    } else {
      RunFirst(c, s, sched);
      var j, call := sched[0].thread, sched[0].call;
      if j == i { TurnCounts(c, s, i, call); } else { OthersStay(c, s, i, j, call); }
      LookupEnds(c, Step(c, s, j, call), i, sched[1..]);
    }
  }
}

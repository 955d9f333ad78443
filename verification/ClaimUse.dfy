/**
 Runs of c12s in which only the calls of a given set are made: every entry a slot has
 held was inserted, and every thread works for one of those calls.
 */
module ClaimUse {
  import opened Tags
  import opened Sieve
  import opened Claim
  import opened ClaimRuns

  /** Every turn offers a call in use. */
  ghost predicate Uses<W(!new)>(sched: seq<Turn<W>>, calls: iset<Call<W>>) {
    forall j | 0 <= j < |sched| :: sched[j].call in calls
  }

  /** `s'` can follow `s` when only `calls` are made. */
  ghost predicate Reaches<W(!new)>(c: Config<W>, calls: iset<Call<W>>, s: State<W>, s': State<W>)
    requires ValidConfig(c)
  {
    exists sched: seq<Turn<W>> :: Scheduled(c, sched, |s.threads|) && Uses(sched, calls) && s' == Run(c, s, sched)
  }

  /** The states of the runs from empty in which only `calls` are made. */
  ghost predicate ReachableBy<W(!new)>(c: Config<W>, calls: iset<Call<W>>, threads: nat, s: State<W>)
    requires ValidConfig(c)
  {
    Reaches(c, calls, Init(c, threads), s)
  }

  lemma ReachableByIsReachable<W(!new)>(c: Config<W>, calls: iset<Call<W>>, threads: nat, s: State<W>)
    requires ValidConfig(c) && ReachableBy(c, calls, threads, s)
    ensures Reachable(c, threads, s)
  {
    hide Run;
  }

  /** The call the thread works for is in use. */
  ghost predicate LocalIn<W(!new)>(l: Local<W>, calls: iset<Call<W>>) {
    match l
    case Scan(call, _, _, _, _, _, _) => call in calls
    case UpdateLoad(row, _) => CallInsert(row) in calls
    case UpdateCas(row, _, _) => CallInsert(row) in calls
    case WarmLoad(row) => CallInsert(row) in calls
    case WarmCas(row, _) => CallInsert(row) in calls
    case Hand(row) => CallInsert(row) in calls
    case Sweeping(_, row, _, _) => CallInsert(row) in calls
    case Own(_, _, row, _, _, _, _) => CallInsert(row) in calls
    case _ => true
  }

  ghost predicate SlotIn<W(!new)>(slot: Slot<W>, calls: iset<Call<W>>) {
    forall m | 0 <= m < |Rows(slot)| :: CallInsert(Rows(slot)[m]) in calls
  }

  ghost predicate InUse<W(!new)>(s: State<W>, calls: iset<Call<W>>) {
    && (forall i | 0 <= i < |s.threads| :: LocalIn(s.threads[i], calls))
    && forall p | 0 <= p < |s.slots| :: SlotIn(s.slots[p], calls)
  }

  /** One thread and one slot change. */
  lemma PutInUse<W(!new)>(
    s: State<W>, s': State<W>, calls: iset<Call<W>>, i: nat, p: nat)
    requires InUse(s, calls) && i < |s.threads| == |s'.threads| && |s'.slots| == |s.slots|
    requires s'.threads == s.threads[i := s'.threads[i]]
    requires forall q | 0 <= q < |s.slots| && q != p :: s'.slots[q] == s.slots[q]
    requires LocalIn(s'.threads[i], calls) && (p < |s.slots| ==> SlotIn(s'.slots[p], calls))
    ensures InUse(s', calls)
  {
    hide LocalIn, SlotIn;
  }

  lemma StepInUse<W(!new)>(c: Config<W>, s: State<W>, calls: iset<Call<W>>, i: nat, call: Call<W>)
    requires ValidConfig(c) && i < |s.threads| && InUse(s, calls) && call in calls
    ensures InUse(Step(c, s, i, call), calls)
  {
    hide TagFor, StepScan, StepClaim, StepOwn, InUse;
    match s.threads[i]
    case Idle => PutInUse(s, Step(c, s, i, call), calls, i, |s.slots|);
    case Finished(_) => PutInUse(s, Step(c, s, i, call), calls, i, |s.slots|);
    case Scan(_, _, _, _, _, _, _) => ScanInUse(c, s, calls, i);
    case Own(_, _, _, _, _, _, _) => OwnInUse(c, s, calls, i);
    case _ => ClaimInUse(c, s, calls, i);
  }

  lemma ThreadInUse<W(!new)>(s: State<W>, calls: iset<Call<W>>, i: nat, p: nat)
    requires InUse(s, calls) && i < |s.threads|
    ensures LocalIn(s.threads[i], calls) && (p < |s.slots| ==> SlotIn(s.slots[p], calls))
  {
    hide LocalIn, SlotIn;
  }

  lemma ScanInUse<W(!new)>(c: Config<W>, s: State<W>, calls: iset<Call<W>>, i: nat)
    requires ValidConfig(c) && i < |s.threads| && InUse(s, calls) && s.threads[i].Scan?
    ensures InUse(StepScan(c, s, i), calls)
  {
    hide TagFor, InUse, Matches, NeedleFor, IdOf, Live;
    ThreadInUse(s, calls, i, |s.slots|);
    PutInUse(s, StepScan(c, s, i), calls, i, |s.slots|);
  }

  lemma ClaimInUse<W(!new)>(c: Config<W>, s: State<W>, calls: iset<Call<W>>, i: nat)
    requires ValidConfig(c) && i < |s.threads| && InUse(s, calls)
    requires var l := s.threads[i]; !l.Idle? && !l.Finished? && !l.Scan? && !l.Own?
    ensures InUse(StepClaim(c, s, i), calls)
  {
    hide TagFor, InUse, Matches, NeedleFor, IdOf, Live;
    var l := s.threads[i];
    var p := if l.WarmCas? then l.cur else PosOf(l);
    ThreadInUse(s, calls, i, p);
    if p < |s.slots| { ClaimedIn(s.slots[p], calls, i, l); }
    PutInUse(s, StepClaim(c, s, i), calls, i, p);
  }

  lemma ClaimedIn<W(!new)>(slot: Slot<W>, calls: iset<Call<W>>, i: nat, l: Local<W>)
    requires SlotIn(slot, calls) && LocalIn(l, calls)
    ensures forall b: bool :: SlotIn(slot.(visited := b), calls)
    ensures l.UpdateCas? || l.WarmCas? || l.Sweeping? ==> forall how :: SlotIn(Claimed(slot, i, how, l.row), calls)
    ensures l.WarmCas? ==> SlotIn(Reserved(slot, i, l.row), calls)
  {
    PublishedIn(slot, calls);
    if l.UpdateCas? || l.WarmCas? || l.Sweeping? {
      forall how ensures SlotIn(Claimed(slot, i, how, l.row), calls) {
        assert Rows(Claimed(slot, i, how, l.row)) == slot.pubs + [l.row];
      }
      assert Rows(Reserved(slot, i, l.row)) == slot.pubs + [l.row];
    }
    forall b: bool ensures SlotIn(slot.(visited := b), calls) {
      assert Rows(slot.(visited := b)) == Rows(slot);
    }
  }

  lemma PublishedIn<W(!new)>(slot: Slot<W>, calls: iset<Call<W>>)
    requires SlotIn(slot, calls)
    ensures forall m | 0 <= m < |slot.pubs| :: CallInsert(slot.pubs[m]) in calls
  {
    forall m | 0 <= m < |slot.pubs| ensures CallInsert(slot.pubs[m]) in calls {
      assert Rows(slot)[m] == slot.pubs[m];
    }
  }

  lemma OwnInUse<W(!new)>(c: Config<W>, s: State<W>, calls: iset<Call<W>>, i: nat)
    requires ValidConfig(c) && i < |s.threads| && InUse(s, calls) && s.threads[i].Own?
    ensures InUse(StepOwn(c, s, i), calls)
  {
    hide StepOwn, InUse, SlotIn;
    var l, s' := s.threads[i], StepOwn(c, s, i);
    ThreadInUse(s, calls, i, l.pos);
    OwnThread(c, s, i);
    OwnSlot(c, s, i);
    if l.pos < |s.slots| { OwnedIn(s.slots[l.pos], s'.slots[l.pos], calls, l); }
    PutInUse(s, s', calls, i, l.pos);
  }

  lemma OwnThread<W>(c: Config<W>, s: State<W>, i: nat)
    requires ValidConfig(c) && i < |s.threads| && s.threads[i].Own?
    ensures var s' := StepOwn(c, s, i);
      && |s'.threads| == |s.threads| && s'.threads == s.threads[i := s'.threads[i]]
      && var l' := s'.threads[i];
         (l'.Own? && l'.row == s.threads[i].row) || l'.UpdateVisit? || l'.Finished?
  {
    hide TagFor, IdOf, Returned, Published;
  }

  lemma OwnSlot<W>(c: Config<W>, s: State<W>, i: nat)
    requires ValidConfig(c) && i < |s.threads| && s.threads[i].Own?
    ensures var l, s' := s.threads[i], StepOwn(c, s, i);
      && |s'.slots| == |s.slots| && (forall q | 0 <= q < |s.slots| && q != l.pos :: s'.slots[q] == s.slots[q])
      && (l.pos < |s.slots| ==>
            var a, b := s.slots[l.pos], s'.slots[l.pos];
            (b.pubs == a.pubs && b.coming == a.coming) || (b.pubs == a.pubs + [l.row] && b.coming.None?))
  {
    hide TagFor, IdOf;
  }

  lemma OwnedIn<W(!new)>(a: Slot<W>, b: Slot<W>, calls: iset<Call<W>>, l: Local<W>)
    requires SlotIn(a, calls) && LocalIn(l, calls) && l.Own?
    requires (b.pubs == a.pubs && b.coming == a.coming) || (b.pubs == a.pubs + [l.row] && b.coming.None?)
    ensures SlotIn(b, calls)
  {
    PublishedIn(a, calls);
    if b.pubs == a.pubs && b.coming == a.coming {
      assert Rows(b) == Rows(a);
    } else {
      assert Rows(b) == a.pubs + [l.row];
    }
  }

  lemma {:induction false} RunInUse<W(!new)>(
    c: Config<W>, s: State<W>, calls: iset<Call<W>>, sched: seq<Turn<W>>)
    requires ValidConfig(c) && Scheduled(c, sched, |s.threads|) && Uses(sched, calls) && InUse(s, calls)
    ensures InUse(Run(c, s, sched), calls)
    decreases |sched|
  {
    hide Step, InUse, Run;
    if sched == [] {
      RunEmpty(c, s, sched);
    } else {
      RunFirst(c, s, sched);
      StepInUse(c, s, calls, sched[0].thread, sched[0].call);
      RunInUse(c, Step(c, s, sched[0].thread, sched[0].call), calls, sched[1..]);
    }
  }

  /** Every entry a slot has held was inserted by a call in use. */
  lemma ReachableInUse<W(!new)>(c: Config<W>, calls: iset<Call<W>>, threads: nat, s: State<W>)
    requires ValidConfig(c) && ReachableBy(c, calls, threads, s)
    ensures InUse(s, calls)
  {
    hide Run;
    var sched :| Scheduled(c, sched, threads) && Uses(sched, calls) && s == Run(c, Init(c, threads), sched);
    RunInUse(c, Init(c, threads), calls, sched);
  }
}

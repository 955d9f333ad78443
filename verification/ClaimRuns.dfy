/**
 What the step machine of c12s keeps in every run: whose each slot is, who writes an
 entry, what becomes of each published entry, what a validated read is worth, and what
 `evict_one` chooses when no one interferes.
 */
module ClaimRuns {
  import opened Tags
  import opened Sieve
  import opened Counting
  import opened Division
  import opened Claim

  /** Thread `thread` takes a step; if it was idle it calls `call`. */
  datatype Turn<+W> = Turn(thread: nat, call: Call<W>)

  ghost predicate Scheduled<W>(c: Config<W>, sched: seq<Turn<W>>, threads: nat) {
    forall j | 0 <= j < |sched| :: sched[j].thread < threads && Fits(c, sched[j].call)
  }

  /** The state after the turns `sched`, in order. */
  ghost function Run<W>(c: Config<W>, s: State<W>, sched: seq<Turn<W>>): (s': State<W>)
    requires ValidConfig(c) && Scheduled(c, sched, |s.threads|)
    ensures |s'.threads| == |s.threads|
    decreases |sched|
  {
    hide StepScan, StepClaim, StepOwn, Scheduled;
    if sched == [] then s
    else
      SameThreads(c, s, sched[0].thread, sched[0].call);
      Run(c, Step(c, s, sched[0].thread, sched[0].call), sched[1..])
  }

  lemma SameThreads<W>(c: Config<W>, s: State<W>, i: nat, call: Call<W>)
    requires ValidConfig(c) && i < |s.threads|
    ensures |Step(c, s, i, call).threads| == |s.threads|
  {
    hide Matches, IdOf, Live, TagFor, NeedleFor;
  }

  lemma InitHolds<W>(c: Config<W>, threads: nat)
    requires ValidConfig(c)
    ensures Inv<W>(c, Init(c, threads))
  {
    hide RoundUp, TagFor;
  }

  lemma {:induction false} RunKeeps<W>(c: Config<W>, s: State<W>, sched: seq<Turn<W>>)
    requires Inv(c, s) && Scheduled(c, sched, |s.threads|)
    ensures Inv(c, Run(c, s, sched))
    decreases |sched|
  {
    hide Inv, Step;
    Here0(c, s);
    if sched != [] {
      StepKeeps(c, s, sched[0].thread, sched[0].call);
      SameThreads(c, s, sched[0].thread, sched[0].call);
      RunKeeps(c, Step(c, s, sched[0].thread, sched[0].call), sched[1..]);
    }
  }

  lemma Here0<W>(c: Config<W>, s: State<W>)
    requires Inv(c, s)
    ensures ValidConfig(c) && c.cap <= |s.slots| == RoundUp(c.cap) && s.len <= c.cap
  {
  }

  /** Every state of every run, from empty, of any number of threads. */
  ghost predicate Reachable<W(!new)>(c: Config<W>, threads: nat, s: State<W>)
    requires ValidConfig(c)
  {
    exists sched: seq<Turn<W>> :: Scheduled(c, sched, threads) && s == Run(c, Init(c, threads), sched)
  }

  lemma ReachableHolds<W(!new)>(c: Config<W>, threads: nat, s: State<W>)
    requires ValidConfig(c) && Reachable(c, threads, s)
    ensures Inv(c, s) && |s.threads| == threads
  {
    hide Inv;
    var sched :| Scheduled(c, sched, threads) && s == Run(c, Init(c, threads), sched);
    InitHolds<W>(c, threads);
    RunKeeps(c, Init(c, threads), sched);
  }

  // ---- ownership ----

  ghost predicate LiveAt<W>(s: State<W>, p: nat) { p < |s.slots| && s.slots[p].tag != EMPTY }

  /** Exactly one thread owns the slot. */
  ghost predicate OneOwner<W>(s: State<W>, p: nat) {
    exists i :: OwnerIs(s, i, p) && forall j :: OwnerIs(s, j, p) ==> j == i
  }

  /** The tag names its own position, keeps its key's hash bits, and the entry is whole. */
  ghost predicate WholeAt<W>(c: Config<W>, s: State<W>, p: nat)
    requires ValidConfig(c)
  {
    && LiveAt(s, p) && Live(s.slots[p].tag) && IdOf(c.scheme.layout, s.slots[p].tag) == p
    && HoldsLast(s.slots[p])
    && Matches(c.scheme.layout, s.slots[p].tag, NeedleFor(c, KeyOf(c, s.slots[p].pubs[|s.slots[p].pubs| - 1])))
  }

  /**
   In every reachable state a position below `len` is live, whole and owned by nobody, or
   EMPTY and owned by exactly one thread; the others are EMPTY and owned by nobody.
   */
  lemma EverySlot<W(!new)>(c: Config<W>, threads: nat, s: State<W>, p: nat)
    requires ValidConfig(c) && Reachable(c, threads, s) && p < |s.slots|
    ensures s.len <= c.cap
    ensures p < s.len && LiveAt(s, p) ==> WholeAt(c, s, p) && forall i :: !OwnerIs(s, i, p)
    ensures p < s.len && !LiveAt(s, p) ==> OneOwner(s, p)
    ensures p >= s.len ==> !LiveAt(s, p) && forall i :: !OwnerIs(s, i, p)
  {
    hide TagFor, IdOf, Matches, Live, LeavesOk, RoundUp, Reachable;
    ReachableHolds(c, threads, s);
    assert SlotOk(c, p, p < s.len, s.slots[p]);
    forall i: nat | OwnerIs(s, i, p) ensures s.slots[p].holder == Some(i) && s.slots[p].tag == EMPTY {
      assert ThreadOk(c, i, s.threads[i], At(s, p));
    }
    if p < s.len && !LiveAt(s, p) {
      assert OwnerIs(s, s.slots[p].holder.value, p);
    }
  }

  /** Only the owner of a slot writes a word of its entry, and only while it is EMPTY. */
  lemma OnlyOwnerWrites<W(!new)>(
    c: Config<W>, threads: nat, s: State<W>, i: nat, call: Call<W>, p: nat)
    requires ValidConfig(c) && Reachable(c, threads, s) && i < threads == |s.threads| && p < |s.slots|
    ensures var s' := Step(c, s, i, call);
      && |s'.slots| == |s.slots|
      && (s'.slots[p].words != s.slots[p].words ==>
            OwnerIs(s, i, p) && s.slots[p].tag == EMPTY && p < s.len)
  {
    hide TagFor, IdOf, Matches, Live, LeavesOk, RoundUp, Reachable, NeedleFor, StepOwn, StepClaim, StepScan;
    ReachableHolds(c, threads, s);
    assert SlotOk(c, p, p < s.len, s.slots[p]);
    assert ThreadOk(c, i, s.threads[i], At(s, PosOf(s.threads[i])));
    OwnWrites(c, s, i, p);
  }

  lemma OwnWrites<W>(c: Config<W>, s: State<W>, i: nat, p: nat)
    requires ValidConfig(c) && i < |s.threads| && p < |s.slots|
    ensures s.threads[i].Own? && p != s.threads[i].pos ==>
      var s' := StepOwn(c, s, i); |s'.slots| == |s.slots| && s'.slots[p] == s.slots[p]
    ensures s.threads[i].Own? ==> |StepOwn(c, s, i).slots| == |s.slots|
    ensures s.threads[i].Scan? ==> StepScan(c, s, i).slots == s.slots && StepScan(c, s, i).len == s.len
    ensures var s' := StepClaim(c, s, i);
      |s'.slots| == |s.slots| && s'.slots[p].words == s.slots[p].words
  {
    hide TagFor, IdOf, Matches, Live, NeedleFor;
  }

  /**
   In every reachable state the entry a thread is about to read or write lies below `len`;
   it is read only when all its words have been written.
   */
  lemma EntryAccess<W(!new)>(c: Config<W>, threads: nat, s: State<W>, i: nat)
    requires ValidConfig(c) && Reachable(c, threads, s) && i < |s.threads|
    ensures var l := s.threads[i];
      (l.Scan? && !l.look.LoadTag?) || (l.Own? && l.at.TakeWord?) ==>
        var id := IdOf(c.scheme.layout, l.t);
        id == l.pos < s.len <= c.cap && |At(s, id).words| == Width(c) && Whole(At(s, id).words).Some?
    ensures s.threads[i].Own? ==> s.threads[i].pos < s.len <= c.cap
  {
    hide TagFor, IdOf, Matches, Live, LeavesOk, RoundUp, Reachable, WordsOk, WordSeen, ReadTo;
    ReachableHolds(c, threads, s);
    Here(c, s, i);
    var slot := At(s, PosOf(s.threads[i]));
    if PosOf(s.threads[i]) < c.cap && slot.pubs != [] { Initialised(slot); }
  }

  /** A slot that was published once has all its words written. */
  lemma Initialised<W>(slot: Slot<W>)
    requires WordsOk(slot) && slot.pubs != []
    ensures Whole(slot.words).Some?
  {
    forall j | 0 <= j < |slot.words| ensures slot.words[j].Some? { assert WordOk(slot, j); }
  }

  /** `len` counts the live slots and the owned ones, and never exceeds the capacity. */
  lemma LenIsLivePlusOwned<W(!new)>(c: Config<W>, threads: nat, s: State<W>)
    requires ValidConfig(c) && Reachable(c, threads, s)
    ensures |LiveSlots(s)| + |Owners(s)| == s.len <= c.cap
  {
    hide Inv, RoundUp, Reachable, OneOwner;
    ReachableHolds(c, threads, s);
    Here0(c, s);
    var live := LiveSlots(s);
    var held := UpTo(s.len) - live;
    forall p | p in live ensures p < s.len {
      LiveBelow(c, threads, s, p);
    }
    assert live + held == UpTo(s.len);
    forall p | p in held ensures OneOwner(s, p) {
      EverySlot(c, threads, s, p);
    }
    forall i | i in Owners(s) ensures PosOf(s.threads[i]) in held {
      OwnedIsHeld(c, threads, s, i);
    }
    OneOwnerEach(s, held, Owners(s));
  }

  lemma LiveBelow<W(!new)>(c: Config<W>, threads: nat, s: State<W>, p: nat)
    requires ValidConfig(c) && Reachable(c, threads, s) && LiveAt(s, p)
    ensures p < s.len
  {
    EverySlot(c, threads, s, p);
  }

  lemma OwnedIsHeld<W(!new)>(c: Config<W>, threads: nat, s: State<W>, i: nat)
    requires ValidConfig(c) && Reachable(c, threads, s) && i < |s.threads| && s.threads[i].Own?
    ensures var p := PosOf(s.threads[i]); p < s.len && !LiveAt(s, p)
  {
    hide Inv, RoundUp, Reachable;
    ReachableHolds(c, threads, s);
    OwnerInRange(c, s, i, PosOf(s.threads[i]));
    assert OwnerIs(s, i, PosOf(s.threads[i]));
    EverySlot(c, threads, s, PosOf(s.threads[i]));
  }

  lemma OwnerInRange<W>(c: Config<W>, s: State<W>, i: nat, p: nat)
    requires Inv(c, s) && OwnerIs(s, i, p)
    ensures p < |s.slots|
  {
    hide RoundUp, TagFor, IdOf;
    assert ThreadOk(c, i, s.threads[i], At(s, p));
  }

  ghost function LiveSlots<W>(s: State<W>): set<nat> {
    set p: nat | p < |s.slots| && LiveAt(s, p)
  }

  ghost function Owners<W>(s: State<W>): set<nat> {
    set i: nat | i < |s.threads| && s.threads[i].Own?
  }

  /** Owners and owned slots correspond one to one. */
  lemma {:induction false} OneOwnerEach<W>(s: State<W>, held: set<nat>, owners: set<nat>)
    requires forall p | p in held :: OneOwner(s, p)
    requires forall i, p: nat | OwnerIs(s, i, p) && p in held :: i in owners
    requires forall i | i in owners :: i < |s.threads| && s.threads[i].Own? && PosOf(s.threads[i]) in held
    ensures |held| == |owners|
    decreases |held|
  {
    if held == {} {
      assert forall i :: i !in owners;
    } else {
      var p :| p in held;
      assert OneOwner(s, p);
      var i: nat :| OwnerIs(s, i, p) && forall j :: OwnerIs(s, j, p) ==> j == i;
      forall j | j in owners - {i} ensures PosOf(s.threads[j]) in held - {p} {
        assert PosOf(s.threads[j]) == p ==> OwnerIs(s, j, p);
      }
      OneOwnerEach(s, held - {p}, owners - {i});
    }
  }

  // ---- what becomes of a publication ----

  /** `a` and `b` record the same departures; an eviction may have returned since. */
  ghost predicate SameLeaves<W>(a: seq<Leave<W>>, b: seq<Leave<W>>) {
    && |a| <= |b|
    && forall m | 0 <= m < |a| :: a[m].ByEviction? == b[m].ByEviction? && (a[m] != ByEviction(None) ==> b[m] == a[m])
  }

  ghost predicate Grows<W>(s: State<W>, s': State<W>) {
    && |s'.slots| == |s.slots| && s.len <= s'.len
    && forall p | 0 <= p < |s.slots| ::
      s.slots[p].pubs <= s'.slots[p].pubs && SameLeaves(s.slots[p].left, s'.slots[p].left)
  }

  /** A step changes the history of one slot at most: a claim, or a publication. */
  lemma StepGrows<W>(c: Config<W>, s: State<W>, i: nat, call: Call<W>)
    requires Inv(c, s) && i < |s.threads|
    ensures Grows(s, Step(c, s, i, call))
  {
    hide TagFor, IdOf, Matches, Live, RoundUp, NeedleFor, Inv, StepScan, StepClaim, StepOwn;
    Here(c, s, i);
    match s.threads[i]
    case Scan(_, _, _, _, _, _, _) =>
      OwnWrites(c, s, i, 0);
      NothingGrows(s, StepScan(c, s, i));
    case Idle => NothingGrows(s, Go(s, i, At0(call, 0)));
    case Finished(_) => NothingGrows(s, Go(s, i, Idle));
    case Own(_, _, _, _, _, _, _) => OwnGrows(c, s, i);
    case _ => ClaimGrows(c, s, i);
  }

  lemma SlotGrows<W>(s: State<W>, s': State<W>, pos: nat)
    requires pos < |s.slots| == |s'.slots| && s'.slots == s.slots[pos := s'.slots[pos]] && s.len <= s'.len
    requires s.slots[pos].pubs <= s'.slots[pos].pubs && SameLeaves(s.slots[pos].left, s'.slots[pos].left)
    ensures Grows(s, s')
  {
  }

  lemma ClaimGrows<W>(c: Config<W>, s: State<W>, i: nat)
    requires ValidConfig(c) && i < |s.threads|
    ensures Grows(s, StepClaim(c, s, i))
  {
    hide TagFor, IdOf, Matches, Live, NeedleFor, Grows;
    var l := s.threads[i];
    var s' := StepClaim(c, s, i);
    var pos := if l.WarmCas? then l.cur else PosOf(l);
    if pos < |s.slots| { SlotGrows(s, s', pos); }
    else if |s.slots| > 0 { SlotGrows(s, s', 0); }
    else { NothingGrows(s, s'); }
  }

  lemma NothingGrows<W>(s: State<W>, s': State<W>)
    requires s'.slots == s.slots && s.len <= s'.len
    ensures Grows(s, s')
  {
  }

  lemma OwnGrows<W>(c: Config<W>, s: State<W>, i: nat)
    requires Inv(c, s) && i < |s.threads| && s.threads[i].Own?
    ensures Grows(s, StepOwn(c, s, i))
  {
    hide TagFor, IdOf, RoundUp, NeedleFor, Inv, Grows;
    Here(c, s, i);
    SlotGrows(s, StepOwn(c, s, i), s.threads[i].pos);
  }

  /** History only grows, so an entry leaves its slot at most once and in one way. */
  lemma {:induction false} RunGrows<W>(c: Config<W>, s: State<W>, sched: seq<Turn<W>>)
    requires Inv(c, s) && Scheduled(c, sched, |s.threads|)
    ensures Grows(s, Run(c, s, sched))
    decreases |sched|
  {
    hide Inv, Step;
    Here0(c, s);
    if sched != [] {
      var next := Step(c, s, sched[0].thread, sched[0].call);
      StepKeeps(c, s, sched[0].thread, sched[0].call);
      SameThreads(c, s, sched[0].thread, sched[0].call);
      StepGrows(c, s, sched[0].thread, sched[0].call);
      RunGrows(c, next, sched[1..]);
      var last := Run(c, s, sched);
      forall p | 0 <= p < |s.slots|
        ensures s.slots[p].pubs <= last.slots[p].pubs && SameLeaves(s.slots[p].left, last.slots[p].left)
      {
        assert s.slots[p].pubs <= next.slots[p].pubs && SameLeaves(s.slots[p].left, next.slots[p].left);
        assert next.slots[p].pubs <= last.slots[p].pubs && SameLeaves(next.slots[p].left, last.slots[p].left);
      }
    }
  }

  function Evictions<W>(left: seq<Leave<W>>): nat {
    if left == [] then 0 else Evictions(left[1..]) + if left[0].ByEviction? then 1 else 0
  }

  function Updates<W>(left: seq<Leave<W>>): nat {
    if left == [] then 0 else Updates(left[1..]) + if left[0].ByUpdate? then 1 else 0
  }

  lemma {:induction false} EveryLeaveCounts<W>(left: seq<Leave<W>>)
    ensures Evictions(left) + Updates(left) == |left|
  {
    if left != [] { EveryLeaveCounts(left[1..]); }
  }

  /** Entries published, still live, evicted and overwritten over all slots. */
  datatype Books = Books(published: nat, live: nat, evicted: nat, overwritten: nat)

  function Tally<W>(slots: seq<Slot<W>>): Books {
    if slots == [] then Books(0, 0, 0, 0)
    else
      var rest := Tally(slots[1..]);
      Books(rest.published + |slots[0].pubs|, rest.live + (if slots[0].tag != EMPTY then 1 else 0),
            rest.evicted + Evictions(slots[0].left), rest.overwritten + Updates(slots[0].left))
  }

  lemma {:induction false} TallyBalances<W>(slots: seq<Slot<W>>)
    requires forall p | 0 <= p < |slots| ::
      |slots[p].pubs| == |slots[p].left| + (if slots[p].tag != EMPTY then 1 else 0)
    ensures var b := Tally(slots); b.published == b.live + b.evicted + b.overwritten
  {
    if slots != [] {
      EveryLeaveCounts(slots[0].left);
      TallyBalances(slots[1..]);
    }
  }

  /** In every reachable state: publications = live + evicted + overwritten. */
  lemma BooksBalance<W(!new)>(c: Config<W>, threads: nat, s: State<W>)
    requires ValidConfig(c) && Reachable(c, threads, s)
    ensures var b := Tally(s.slots); b.published == b.live + b.evicted + b.overwritten
  {
    hide TagFor, LeavesOk, HoldsLast, Reachable, RoundUp;
    ReachableHolds(c, threads, s);
    forall p | 0 <= p < |s.slots|
      ensures |s.slots[p].pubs| == |s.slots[p].left| + (if s.slots[p].tag != EMPTY then 1 else 0)
    {
      assert SlotOk(c, p, p < s.len, s.slots[p]);
    }
    TallyBalances(s.slots);
  }

  /** An insert that evicts returns exactly the entry published last in the slot it took. */
  lemma EvictionReturnsLast<W(!new)>(c: Config<W>, threads: nat, s: State<W>, i: nat, call: Call<W>)
    requires ValidConfig(c) && Reachable(c, threads, s) && i < threads == |s.threads|
    requires s.threads[i].Own? && s.threads[i].at.Publish? && s.threads[i].path.Replacing?
    ensures var pos, s' := s.threads[i].pos, Step(c, s, i, call);
      && pos < |s.slots| == |s'.slots| && s.slots[pos].pubs != []
      && var n := |s.slots[pos].pubs| - 1;
         && s'.threads[i] == Finished(Inserted(Some(s.slots[pos].pubs[n])))
         && n < |s'.slots[pos].left| && s'.slots[pos].left[n] == ByEviction(Some(s.slots[pos].pubs[n]))
         && s'.slots[pos].pubs == s.slots[pos].pubs + [s.threads[i].row]
  {
    hide TagFor, Reachable, RoundUp, IdOf, LeavesOk;
    ReachableHolds(c, threads, s);
    Here(c, s, i);
    var l := s.threads[i];
    NothingLeft(c, l.pos, l.pos < s.len, At(s, l.pos));
    ReturnSlot(c, l.pos, l.pos < s.len, At(s, l.pos), i, l);
  }

  // ---- what a validated read is worth ----

  /** The tag under a reader is the one it loaded, and live: the read counts. */
  ghost predicate Validates<W>(s: State<W>, i: nat) {
    && i < |s.threads| && s.threads[i].Scan? && s.threads[i].look.CheckTag?
    && At(s, s.threads[i].pos).tag == s.threads[i].t && Live(s.threads[i].t)
  }

  /**
   A read that validates, of a slot where nothing was published since its tag was loaded,
   has every word of the entry published there; if the key is the one sought, a lookup
   goes on to return that entry's value and an insert to update that slot.
   */
  lemma ValidatedRead<W(!new)>(c: Config<W>, threads: nat, s: State<W>, i: nat, call: Call<W>)
    requires ValidConfig(c) && Reachable(c, threads, s) && Validates(s, i)
    requires |At(s, s.threads[i].pos).pubs| == s.threads[i].n
    ensures var l := s.threads[i];
      && 0 < l.n && l.got == Somes(At(s, l.pos).pubs[l.n - 1])
      && var row := At(s, l.pos).pubs[l.n - 1];
         Step(c, s, i, call).threads[i] ==
         if KeyOf(c, row) != CallKey(c, l.call) then At0(l.call, l.pos + 1)
         else match l.call
              case CallGet(_) => Touch(false, l.pos, Some(ValueOf(c, row)))
              case CallInsert(newRow) => UpdateLoad(newRow, l.pos)
  {
    hide TagFor, Reachable, RoundUp, IdOf, LeavesOk, Matches, Live, NeedleFor, SlotOk, Inv, ReadTo;
    ReachableHolds(c, threads, s);
    QuietRead(c, s, i);
    WholeSomes(At(s, s.threads[i].pos).pubs[s.threads[i].n - 1]);
  }

  lemma QuietRead<W>(c: Config<W>, s: State<W>, i: nat)
    requires Inv(c, s) && Validates(s, i) && |At(s, s.threads[i].pos).pubs| == s.threads[i].n
    ensures var l := s.threads[i]; 0 < l.n && l.got == Somes(At(s, l.pos).pubs[l.n - 1])
  {
    hide TagFor, RoundUp, IdOf, LeavesOk, Matches, Live, NeedleFor, SlotOk, WordSeen, ReadTo;
    Here(c, s, i);
    NotLiveEmpty();
    var l := s.threads[i];
    GotWhole(c, l);
    ValidatedWidth(c, s, i);
  }

  /** After the last word the whole entry has been read. */
  lemma GotWhole<W>(c: Config<W>, l: Local<W>)
    requires ValidConfig(c) && l.Scan? && l.look.CheckTag? && Reading(c, l) && |l.got| == Width(c)
    ensures Whole(l.got).Some?
  {
    OrdersCover(c, l.call);
    AllRead(ReadOrder(c, l.call), l.got);
  }

  lemma ValidatedWidth<W>(c: Config<W>, s: State<W>, i: nat)
    requires Inv(c, s) && i < |s.threads| && s.threads[i].Scan? && s.threads[i].pos < c.cap
    ensures forall m | 0 <= m < |At(s, s.threads[i].pos).pubs| :: IsEntry(c, At(s, s.threads[i].pos).pubs[m])
  {
    hide SlotOk, ThreadOk;
    Here(c, s, i);
    assert SlotOk(c, s.threads[i].pos, s.threads[i].pos < s.len, At(s, s.threads[i].pos));
    PubsFit(c, s.threads[i].pos, s.threads[i].pos < s.len, At(s, s.threads[i].pos));
  }

  lemma PubsFit<W>(c: Config<W>, p: nat, below: bool, slot: Slot<W>)
    requires ValidConfig(c) && (below ==> p < c.cap) && SlotOk(c, p, below, slot)
    ensures forall m | 0 <= m < |slot.pubs| :: IsEntry(c, slot.pubs[m])
  {
  }

  /**
   Whatever is published meanwhile, every word of a read that validates is that word of
   some entry published in the slot since its tag was loaded, that publication included.
   */
  lemma ValidatedWords<W(!new)>(c: Config<W>, threads: nat, s: State<W>, i: nat)
    requires ValidConfig(c) && Reachable(c, threads, s) && Validates(s, i)
    ensures var l, pubs := s.threads[i], At(s, s.threads[i].pos).pubs;
      && 0 < l.n <= |pubs| && |l.got| == Width(c) && l.pos < c.cap && Fits(c, l.call)
      && (forall m | 0 <= m < |pubs| :: IsEntry(c, pubs[m]))
      && NeedleFor(c, KeyOf(c, pubs[l.n - 1])) == NeedleFor(c, CallKey(c, l.call))
      && forall j | 0 <= j < Width(c) :: exists a :: l.n - 1 <= a < |pubs| && l.got[j] == Some(pubs[a][j])
  {
    hide Inv, Reachable, Live, NeedleFor;
    ReachableHolds(c, threads, s);
    WordsOfRead(c, s, i);
  }

  lemma WordsOfRead<W>(c: Config<W>, s: State<W>, i: nat)
    requires Inv(c, s) && Validates(s, i)
    ensures var l, pubs := s.threads[i], At(s, s.threads[i].pos).pubs;
      && 0 < l.n <= |pubs| && |l.got| == Width(c) && l.pos < c.cap && Fits(c, l.call)
      && (forall m | 0 <= m < |pubs| :: IsEntry(c, pubs[m]))
      && NeedleFor(c, KeyOf(c, pubs[l.n - 1])) == NeedleFor(c, CallKey(c, l.call))
      && forall j | 0 <= j < Width(c) :: exists a :: l.n - 1 <= a < |pubs| && l.got[j] == Some(pubs[a][j])
  {
    hide TagFor, RoundUp, IdOf, LeavesOk, WordsOk, HoldsLast, Live, ReadTo, NeedleFor, Matches;
    Here(c, s, i);
    NotLiveEmpty();
    var l := s.threads[i];
    var slot := At(s, l.pos);
    GotWhole(c, l);
    assert Rows(slot) == slot.pubs;
    SameNeedle(c, l.t, KeyOf(c, slot.pubs[l.n - 1]), CallKey(c, l.call));
    forall j | 0 <= j < Width(c)
      ensures exists a :: l.n - 1 <= a < |slot.pubs| && l.got[j] == Some(slot.pubs[a][j])
    {
      assert ReadOk(slot, l.n, j, l.got[j].value);
      var a: nat :| WordAt(slot, l.n, a, j, l.got[j].value);
    }
  }

  /** A tag matches one needle only. */
  lemma SameNeedle<W>(c: Config<W>, t: bv16, k1: Row<W>, k2: Row<W>)
    requires ValidConfig(c)
    requires Matches(c.scheme.layout, t, NeedleFor(c, k1)) && Matches(c.scheme.layout, t, NeedleFor(c, k2))
    ensures NeedleFor(c, k1) == NeedleFor(c, k2)
  {
    hide NeedleFor;
  }

  /** So a read is whole whenever the entries published in the window differ in one word at most. */
  lemma OneWordIsWhole<W(!new)>(c: Config<W>, threads: nat, s: State<W>, i: nat, w: nat) returns (m: nat)
    requires ValidConfig(c) && Reachable(c, threads, s) && Validates(s, i)
    requires var pubs := At(s, s.threads[i].pos).pubs;
      forall x, y, j | s.threads[i].n <= x + 1 && 0 <= x < |pubs| && s.threads[i].n <= y + 1 && 0 <= y < |pubs|
        && 0 <= j < |pubs[x]| && j < |pubs[y]| && j != w :: pubs[x][j] == pubs[y][j]
    ensures var l, pubs := s.threads[i], At(s, s.threads[i].pos).pubs;
      0 < l.n && l.n - 1 <= m < |pubs| && l.got == Somes(pubs[m])
  {
    hide Reachable, Live, NeedleFor;
    ValidatedWords(c, threads, s, i);
    var l, pubs := s.threads[i], At(s, s.threads[i].pos).pubs;
    m := l.n - 1;
    if w < Width(c) { m :| l.n - 1 <= m < |pubs| && l.got[w] == Some(pubs[m][w]); }
    forall j | 0 <= j < Width(c) ensures l.got[j] == Some(pubs[m][j]) {
      var a :| l.n - 1 <= a < |pubs| && l.got[j] == Some(pubs[a][j]);
      assert j != w ==> pubs[a][j] == pubs[m][j];
    }
  }

  /** An update's compare-and-swap succeeds only on an entry whose key has its own needle. */
  lemma UpdateMeetsNeedle<W(!new)>(c: Config<W>, threads: nat, s: State<W>, i: nat)
    requires ValidConfig(c) && Reachable(c, threads, s) && i < |s.threads| && s.threads[i].UpdateCas?
    requires At(s, s.threads[i].pos).tag == s.threads[i].t
    ensures var l := s.threads[i]; var slot := At(s, l.pos);
      && l.pos < c.cap && slot.pubs != [] && HoldsLast(slot)
      && IsEntry(c, slot.pubs[|slot.pubs| - 1]) && IsEntry(c, l.row)
      && NeedleFor(c, KeyOf(c, slot.pubs[|slot.pubs| - 1])) == NeedleFor(c, KeyOf(c, l.row))
  {
    hide TagFor, Reachable, RoundUp, IdOf, LeavesOk, WordsOk, Live, NeedleFor, Matches;
    ReachableHolds(c, threads, s);
    Here(c, s, i);
    var l := s.threads[i];
    var slot := At(s, l.pos);
    SameNeedle(c, l.t, KeyOf(c, slot.pubs[|slot.pubs| - 1]), KeyOf(c, l.row));
  }

  /** How often thread `i` has a turn. */
  ghost function TurnsOf<W>(sched: seq<Turn<W>>, i: nat): nat {
    if sched == [] then 0 else TurnsOf(sched[1..], i) + if sched[0].thread == i then 1 else 0
  }

  /** The words a reader has still to read. */
  function TurnsLeft<W>(c: Config<W>, l: Local<W>): nat {
    if l.Scan? && l.look.ReadWord? && l.m < |ReadOrder(c, l.call)| then |ReadOrder(c, l.call)| - l.m else 0
  }

  /** A reader between its two looks at a tag. */
  ghost predicate Arriving<W>(c: Config<W>, l: Local<W>) {
    l.Scan? && !l.look.LoadTag? && (l.look.ReadWord? ==> l.m < |ReadOrder(c, l.call)|)
  }

  /** Others' turns leave a reader where it is; its own take it to its second look at the tag. */
  lemma {:induction false} ReaderArrives<W>(c: Config<W>, s: State<W>, i: nat, sched: seq<Turn<W>>)
    requires ValidConfig(c) && Scheduled(c, sched, |s.threads|) && i < |s.threads|
    requires Arriving(c, s.threads[i]) && TurnsOf(sched, i) == TurnsLeft(c, s.threads[i])
    ensures var l, l' := s.threads[i], Run(c, s, sched).threads[i];
      l'.Scan? && l'.look.CheckTag? && l'.call == l.call && l'.pos == l.pos && l'.t == l.t && l'.n == l.n
    decreases |sched|
  {
    hide Step, Run, Scheduled;
    if sched == [] {
      assert Run(c, s, sched) == s by { RunEmpty(c, s, sched); }
    } else {
      RunFirst(c, s, sched);
      var next := Step(c, s, sched[0].thread, sched[0].call);
      OwnTurn(c, s, i, sched[0].thread, sched[0].call);
      ReaderArrives(c, next, i, sched[1..]);
    }
  }

  lemma RunEmpty<W>(c: Config<W>, s: State<W>, sched: seq<Turn<W>>)
    requires ValidConfig(c) && sched == []
    ensures Run(c, s, sched) == s
  {
  }

  lemma RunFirst<W>(c: Config<W>, s: State<W>, sched: seq<Turn<W>>)
    requires ValidConfig(c) && Scheduled(c, sched, |s.threads|) && sched != []
    ensures sched[0].thread < |s.threads| == |Step(c, s, sched[0].thread, sched[0].call).threads|
    ensures Scheduled(c, sched[1..], |s.threads|)
    ensures Run(c, s, sched) == Run(c, Step(c, s, sched[0].thread, sched[0].call), sched[1..])
  {
    hide Step;
    SameThreads(c, s, sched[0].thread, sched[0].call);
  }

  lemma OwnTurn<W>(c: Config<W>, s: State<W>, i: nat, j: nat, call: Call<W>)
    requires ValidConfig(c) && i < |s.threads| && j < |s.threads| && s.threads[i].Scan?
    ensures |Step(c, s, j, call).threads| == |s.threads|
    ensures var l, l' := s.threads[i], Step(c, s, j, call).threads[i];
      if j != i then l' == l
      else Arriving(c, l) && l.look.ReadWord? ==>
        && Arriving(c, l') && l'.call == l.call && l'.pos == l.pos && l'.t == l.t && l'.n == l.n
        && TurnsLeft(c, l') == TurnsLeft(c, l) - 1
  {
    hide Matches, IdOf, Live, TagFor, NeedleFor;
  }

  /**
   A read from its first look at a tag to its second: thread `i` finds a matching tag in
   `s0`, and whatever the others do while it reads, if the second look validates and
   nothing was published in the slot in between, the words it read are those that the
   slot held in `s0`, all of them.
   */
  lemma WindowedRead<W(!new)>(
    c: Config<W>, threads: nat, s0: State<W>, i: nat, call: Call<W>, sched: seq<Turn<W>>)
    requires ValidConfig(c) && Reachable(c, threads, s0) && i < threads == |s0.threads| && Fits(c, call)
    requires s0.threads[i].Scan? && s0.threads[i].look.LoadTag? && s0.threads[i].pos < |s0.slots|
    requires Matches(c.scheme.layout, At(s0, s0.threads[i].pos).tag, NeedleFor(c, CallKey(c, s0.threads[i].call)))
    requires Scheduled(c, sched, threads) && TurnsOf(sched, i) == |ReadOrder(c, s0.threads[i].call)|
    ensures var s1 := Step(c, s0, i, call);
      && |s1.threads| == threads
      && var s2, pos := Run(c, s1, sched), s0.threads[i].pos;
         Validates(s2, i) && |At(s2, pos).pubs| == |At(s0, pos).pubs| ==>
           s2.threads[i].got == At(s0, pos).words && Whole(At(s0, pos).words).Some?
  {
    hide TagFor, Reachable, RoundUp, IdOf, Matches, Live, NeedleFor, Run, Scheduled, SlotOk, Inv, ThreadOk;
    ReachableHolds(c, threads, s0);
    NoMatchEmpty(c, CallKey(c, s0.threads[i].call));
    var pos := s0.threads[i].pos;
    SlotLive(c, s0, pos);
    SameThreads(c, s0, i, call);
    OrderStarts(c);
    var s1 := Step(c, s0, i, call);
    var slot := At(s0, pos);
    assert s1.threads[i] == Scan(s0.threads[i].call, ReadWord, pos, slot.tag, |slot.pubs|, 0, Nones(Width(c)));
    ReaderArrives(c, s1, i, sched);
    StepKeeps(c, s0, i, call);
    RunKeeps(c, s1, sched);
    StepGrows(c, s0, i, call);
    RunGrows(c, s1, sched);
    hide Step;
    var s2 := Run(c, s1, sched);
    if Validates(s2, i) && |At(s2, pos).pubs| == |At(s0, pos).pubs| { QuietRead(c, s2, i); }
    assert s0.slots[pos].pubs <= s1.slots[pos].pubs <= s2.slots[pos].pubs;
  }

  lemma SlotLive<W>(c: Config<W>, s: State<W>, p: nat)
    requires Inv(c, s) && p < |s.slots| && s.slots[p].tag != EMPTY
    ensures HoldsLast(s.slots[p]) && Whole(s.slots[p].words).Some?
  {
    hide TagFor, RoundUp, LeavesOk, ThreadOk;
    assert SlotOk(c, p, p < s.len, s.slots[p]);
  }

  // ---- one thread alone ----

  /** Thread `i` takes `n` steps while the others wait. */
  ghost function Alone<W>(c: Config<W>, s: State<W>, i: nat, call: Call<W>, n: nat): (s': State<W>)
    requires ValidConfig(c) && i < |s.threads|
    ensures |s'.threads| == |s.threads|
    decreases n
  {
    hide Step;
    if n == 0 then s
    else
      SameThreads(c, s, i, call);
      Alone(c, Step(c, s, i, call), i, call, n - 1)
  }

  lemma {:induction false} AloneTwice<W>(c: Config<W>, s: State<W>, i: nat, call: Call<W>, m: nat, n: nat)
    requires ValidConfig(c) && i < |s.threads|
    ensures Alone(c, s, i, call, m + n) == Alone(c, Alone(c, s, i, call, m), i, call, n)
    decreases m
  {
    hide Step;
    if m > 0 {
      SameThreads(c, s, i, call);
      AloneTwice(c, Step(c, s, i, call), i, call, m - 1, n);
    }
  }

  /** In the first `n` of these steps the thread does not start from an answer. */
  ghost predicate Unanswered<W>(c: Config<W>, s: State<W>, i: nat, call: Call<W>, n: nat)
    requires ValidConfig(c) && i < |s.threads|
  {
    forall m: nat | m < n :: !Alone(c, s, i, call, m).threads[i].Finished?
  }

  lemma UnansweredTwice<W>(c: Config<W>, s: State<W>, i: nat, call: Call<W>, m: nat, n: nat)
    requires ValidConfig(c) && i < |s.threads| && Unanswered(c, s, i, call, m)
    requires Unanswered(c, Alone(c, s, i, call, m), i, call, n)
    ensures Unanswered(c, s, i, call, m + n)
  {
    hide Alone;
    forall x: nat | x < m + n ensures !Alone(c, s, i, call, x).threads[i].Finished? {
      if x >= m { AloneTwice(c, s, i, call, m, x - m); }
    }
  }

  ghost function VisitedBits<W>(c: Config<W>, s: State<W>): (f: seq<bool>)
    requires c.cap <= |s.slots|
    ensures |f| == c.cap && forall p | 0 <= p < c.cap :: f[p] == s.slots[p].visited
  {
    seq(c.cap, p requires 0 <= p < c.cap => s.slots[p].visited)
  }

  ghost predicate Full<W>(c: Config<W>, s: State<W>) {
    c.cap <= |s.slots| && forall p | 0 <= p < c.cap :: Live(s.slots[p].tag)
  }

  lemma FourSteps<W>(
    c: Config<W>, s: State<W>, i: nat, call: Call<W>, s1: State<W>, s2: State<W>, s3: State<W>)
    requires ValidConfig(c) && i < |s.threads| == |s1.threads| == |s2.threads| == |s3.threads|
    requires s1 == Step(c, s, i, call) && s2 == Step(c, s1, i, call) && s3 == Step(c, s2, i, call)
    requires !s.threads[i].Finished? && !s1.threads[i].Finished? && !s2.threads[i].Finished? && !s3.threads[i].Finished?
    ensures Unanswered(c, s, i, call, 4)
  {
    hide Step;
    assert Alone(c, s, i, call, 0) == s;
    assert Alone(c, s, i, call, 1) == Alone(c, s1, i, call, 0) == s1;
    assert Alone(c, s, i, call, 2) == Alone(c, s1, i, call, 1) == Alone(c, s2, i, call, 0) == s2;
    assert Alone(c, s, i, call, 3) == Alone(c, s1, i, call, 2) == Alone(c, s2, i, call, 1)
        == Alone(c, s3, i, call, 0) == s3;
    forall m: nat | m < 4 ensures !Alone(c, s, i, call, m).threads[i].Finished? {
      assert m == 0 || m == 1 || m == 2 || m == 3;
    }
  }

  /** One turn of the hand takes three steps, and a fourth to clear a bit or claim a tag. */
  lemma HandTurn<W>(c: Config<W>, s: State<W>, i: nat, call: Call<W>, row: Row<W>)
    requires ValidConfig(c) && i < |s.threads| && s.threads[i] == Hand(row) && Full(c, s)
    ensures var pos := s.hand % c.cap;
      Alone(c, s, i, call, 4) ==
      if s.slots[pos].visited then
        s.(slots := s.slots[pos := s.slots[pos].(visited := false)], hand := s.hand + 1)
      else
        s.(slots := s.slots[pos := Claimed(s.slots[pos], i, ByEviction(None), row)], hand := s.hand + 1,
           threads := s.threads[i := Own(Replacing, Unvisit, row, pos, s.slots[pos].tag, 0, Nones(Width(c)))])
    ensures Unanswered(c, s, i, call, 4)
  {
    hide Live;
    var pos := s.hand % c.cap;
    var s1 := Step(c, s, i, call);
    assert s1.threads[i] == Sweeping(SeeTag, row, pos, EMPTY);
    var s2 := Step(c, s1, i, call);
    assert s2.threads[i] == Sweeping(TestBit, row, pos, s.slots[pos].tag);
    var s3 := Step(c, s2, i, call);
    var s4 := Step(c, s3, i, call);
    assert Alone(c, s, i, call, 4) == Alone(c, s1, i, call, 3) == Alone(c, s2, i, call, 2) == Alone(c, s3, i, call, 1);
    assert s4.threads == if s.slots[pos].visited then s.threads else s4.threads;
    assert Alone(c, s3, i, call, 1) == s4;
    FourSteps(c, s, i, call, s1, s2, s3);
  }

  /** From `s` to `s'` thread `i` swept from the hand and claimed the sweep's victim. */
  ghost predicate ClaimsVictim<W>(c: Config<W>, s: State<W>, s': State<W>, i: nat, row: Row<W>)
    requires 0 < c.cap <= |s.slots| && i < |s.threads|
  {
    var (pos, flags) := Sweep(VisitedBits(c, s), s.hand % c.cap);
    && |s'.slots| == |s.slots| && VisitedBits(c, s') == flags
    && s'.threads == s.threads[i := Own(Replacing, Unvisit, row, pos, s.slots[pos].tag, 0, Nones(Width(c)))]
    && s'.slots[pos] == Claimed(s.slots[pos].(visited := false), i, ByEviction(None), row) && s'.len == s.len
    && (forall p | 0 <= p < |s.slots| && p != pos :: s'.slots[p] == s.slots[p].(visited := s'.slots[p].visited))
    && s.hand < s'.hand <= s.hand + 1 + Count(VisitedBits(c, s))
    && s'.hand % c.cap == (if pos + 1 < c.cap then pos + 1 else 0)
  }

  /** A visited slot under the hand costs one turn and its bit. */
  lemma TurnThenClaims<W>(c: Config<W>, s: State<W>, s1: State<W>, s': State<W>, i: nat, row: Row<W>)
    requires 0 < c.cap <= |s.slots| && i < |s.threads|
    requires s.slots[s.hand % c.cap].visited
    requires var pos := s.hand % c.cap;
      s1 == s.(slots := s.slots[pos := s.slots[pos].(visited := false)], hand := s.hand + 1)
    requires ClaimsVictim(c, s1, s', i, row)
    ensures Count(VisitedBits(c, s1)) == Count(VisitedBits(c, s)) - 1
    ensures ClaimsVictim(c, s, s', i, row)
  {
    hide VisitedBits, Count;
    FewerBits(c, s, s1);
    NextHand(s.hand, c.cap);
    var hand, flags := s.hand % c.cap, VisitedBits(c, s);
    assert Sweep(flags, hand) == Sweep(flags[hand := false], if hand + 1 < c.cap then hand + 1 else 0);
  }

  lemma FewerBits<W>(c: Config<W>, s: State<W>, s1: State<W>)
    requires 0 < c.cap <= |s.slots| && s.slots[s.hand % c.cap].visited
    requires var pos := s.hand % c.cap; s1.slots == s.slots[pos := s.slots[pos].(visited := false)]
    ensures VisitedBits(c, s1) == VisitedBits(c, s)[s.hand % c.cap := false]
    ensures Count(VisitedBits(c, s1)) == Count(VisitedBits(c, s)) - 1
  {
    CountClears(VisitedBits(c, s), s.hand % c.cap);
  }

  lemma ClaimsAtOnce<W>(c: Config<W>, s: State<W>, s': State<W>, i: nat, row: Row<W>)
    requires 0 < c.cap <= |s.slots| && i < |s.threads|
    requires !s.slots[s.hand % c.cap].visited
    requires var pos := s.hand % c.cap;
      s' == s.(slots := s.slots[pos := Claimed(s.slots[pos], i, ByEviction(None), row)], hand := s.hand + 1,
               threads := s.threads[i := Own(Replacing, Unvisit, row, pos, s.slots[pos].tag, 0, Nones(Width(c)))])
    ensures ClaimsVictim(c, s, s', i, row)
  {
    assert VisitedBits(c, s') == VisitedBits(c, s);
    NextHand(s.hand, c.cap);
  }

  /**
   Run by one thread on a full shard, `evict_one` claims the victim of the sweep from the
   hand, leaves the flags the sweep leaves, and turns the hand once for each flag it clears
   and once more.
   */
  lemma {:induction false} EvictAlone<W>(c: Config<W>, s: State<W>, i: nat, call: Call<W>, row: Row<W>)
    returns (n: nat)
    requires ValidConfig(c) && i < |s.threads| && s.threads[i] == Hand(row) && Full(c, s)
    ensures ClaimsVictim(c, s, Alone(c, s, i, call, n), i, row) && Unanswered(c, s, i, call, n)
    decreases Count(VisitedBits(c, s))
  {
    hide Live, Alone, Step, ClaimsVictim, VisitedBits, Unanswered;
    var s4 := Alone(c, s, i, call, 4);
    HandTurn(c, s, i, call, row);
    if s.slots[s.hand % c.cap].visited {
      FewerBits(c, s, s4);
      var m := EvictAlone(c, s4, i, call, row);
      n := 4 + m;
      AloneTwice(c, s, i, call, 4, m);
      UnansweredTwice(c, s, i, call, 4, m);
      TurnThenClaims(c, s, s4, Alone(c, s, i, call, n), i, row);
    } else {
      ClaimsAtOnce(c, s, s4, i, row);
      n := 4;
    }
  }

  lemma NextHand(hand: nat, cap: nat)
    requires 0 < cap
    ensures (hand + 1) % cap == if hand % cap + 1 < cap then hand % cap + 1 else 0
  {
    var q, r := hand / cap, hand % cap;
    assert hand + 1 == q * cap + (r + 1);
    if r + 1 < cap {
      Remainder(q, cap, r + 1);
    } else {
      assert hand + 1 == (q + 1) * cap + 0;
      Remainder(q + 1, cap, 0);
    }
  }

  lemma {:induction false} CountBound(flags: seq<bool>)
    ensures Count(flags) <= |flags|
  {
    if flags != [] { CountBound(flags[1..]); }
  }

  /** The bound, and the victim by the two-pass rule: the first unvisited slot from the
      hand cyclically, or the slot under the hand when all were visited. */
  lemma EvictAloneChooses<W>(c: Config<W>, s: State<W>, i: nat, call: Call<W>, row: Row<W>) returns (n: nat)
    requires ValidConfig(c) && i < |s.threads| && s.threads[i] == Hand(row) && Full(c, s)
    ensures var s', pos := Alone(c, s, i, call, n), TwoPass(VisitedBits(c, s), s.hand % c.cap).0;
      && ClaimsVictim(c, s, s', i, row)
      && s'.threads[i] == Own(Replacing, Unvisit, row, pos, s.slots[pos].tag, 0, Nones(Width(c)))
      && VisitedBits(c, s') == TwoPass(VisitedBits(c, s), s.hand % c.cap).1
      && s'.hand <= s.hand + c.cap + 1
      && (s.slots[pos].visited <==> pos == s.hand % c.cap && forall p | 0 <= p < c.cap :: s.slots[p].visited)
  {
    hide Live, Alone, Step, Sweep, TwoPass;
    n := EvictAlone(c, s, i, call, row);
    CountBound(VisitedBits(c, s));
    SweepIsTwoPass(VisitedBits(c, s), s.hand % c.cap);
    VisitedVictimMeansAllVisited(VisitedBits(c, s), s.hand % c.cap);
    AllVisited(VisitedBits(c, s), s.hand % c.cap);
  }

  lemma AllVisited(flags: seq<bool>, hand: nat)
    requires hand < |flags|
    ensures (forall p | 0 <= p < |flags| :: flags[p]) ==> TwoPass(flags, hand).0 == hand
  {
  }
}

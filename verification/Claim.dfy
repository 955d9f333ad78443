/**
 The lock-free shard c12s as a step machine. Any number of threads take turns in any
 order; a step is one atomic access, or the access to one word of an entry. Slots are
 claimed by compare-and-swap: a tag from live to EMPTY, or `len` by one during warm-up.
 Memory is sequentially consistent and the hand is an unbounded natural.

 An entry is a row of words, as many as its key and its value take, and the code reads
 and writes it as a whole: in which order its words move is the compiler's choice, and
 any order is allowed here.
 */
module Claim {
  import opened Tags
  import opened Sieve
  import opened Links

  /** Words of a key, of a value, or of an entry: its key's, then its value's. */
  type Row<+W> = seq<W>

  /** The orders in which `get`, `find_lockfree`, `evict_one` and a writer go over an entry. */
  datatype Orders = Orders(get: seq<nat>, find: seq<nat>, take: seq<nat>, write: seq<nat>)

  datatype Config<!W> = Config(
    cap: nat, keyWords: nat, valueWords: nat, orders: Orders, scheme: Scheme<Row<W>>)

  function Width<W>(c: Config<W>): nat { c.keyWords + c.valueWords }

  /** Every word is met; some perhaps more than once. */
  ghost predicate Covers(order: seq<nat>, width: nat) {
    && (forall m | 0 <= m < |order| :: order[m] < width)
    && (forall j | 0 <= j < width :: j in order)
  }

  ghost predicate ValidConfig<W>(c: Config<W>) {
    && 0 < c.cap <= MAX_PER_SHARD && ValidLayout(c.scheme.layout) && 0 < Width(c)
    && Covers(c.orders.get, Width(c)) && Covers(c.orders.find, Width(c))
    && Covers(c.orders.take, Width(c)) && Covers(c.orders.write, Width(c))
  }

  ghost predicate IsEntry<W>(c: Config<W>, row: Row<W>) { |row| == Width(c) }

  function KeyOf<W>(c: Config<W>, row: Row<W>): Row<W> {
    if c.keyWords <= |row| then row[..c.keyWords] else row
  }

  function ValueOf<W>(c: Config<W>, row: Row<W>): Row<W> {
    if c.keyWords <= |row| then row[c.keyWords..] else []
  }

  /** How a publication left its slot; an eviction still to return has no entry yet. */
  datatype Leave<+W> = ByUpdate | ByEviction(returned: Option<Row<W>>)

  /**
   One position: its tag, the words of its entry (`None` before any write) and its
   visited bit. The rest is history, for the proof: the entries published here in order,
   how each of them left, and, between a claim and the next publication, the thread that
   holds the slot and the entry it is about to publish.
   */
  datatype Slot<+W> = Slot(
    tag: bv16, words: seq<Option<W>>, visited: bool,
    pubs: seq<Row<W>>, left: seq<Leave<W>>,
    holder: Option<nat>, coming: Option<Row<W>>)

  datatype Result<+W> = Got(value: Option<Row<W>>) | Inserted(evicted: Option<Row<W>>)

  /** A lookup of a key, or an insert of an entry. */
  datatype Call<+W> = CallGet(key: Row<W>) | CallInsert(row: Row<W>)

  function CallKey<W>(c: Config<W>, call: Call<W>): Row<W> {
    match call
    case CallGet(key) => key
    case CallInsert(row) => KeyOf(c, row)
  }

  ghost predicate Fits<W>(c: Config<W>, call: Call<W>) {
    match call
    case CallGet(key) => |key| == c.keyWords
    case CallInsert(row) => IsEntry(c, row)
  }

  /** Reading one candidate: the tag, the words of the entry, the tag again. */
  datatype ScanAt = LoadTag | ReadWord | CheckTag

  /** One turn of the hand: the tag, the visited bit, then clear it or claim the tag. */
  datatype SweepAt = SeeTag | TestBit | DropBit | CasTag

  /** How a slot came to be owned: path A, B or C of `insert`. */
  datatype Path = Updating | Warming | Replacing

  /** What the owner of a slot does, in order; the first two only after an eviction. */
  datatype OwnAt = Unvisit | TakeWord | WriteWord | ClearBit | Publish

  /**
   Where a thread is: what its next step does. `row` is the entry it inserts, `t` the tag
   it loaded, `m` how far it is in the order of the words, `got` the words it has read;
   `n` is how many entries had been published in the slot when it loaded the tag, known
   only to the proof.
   */
  datatype Local<+W> =
    | Idle
    | Finished(result: Result<W>)
    // find_lockfree, and find_get with try_candidate
    | Scan(call: Call<W>, look: ScanAt, pos: nat, t: bv16, n: nat, m: nat, got: seq<Option<W>>)
    | Touch(marking: bool, pos: nat, value: Option<Row<W>>)
    // path A, up to the claim and after the publication
    | UpdateLoad(row: Row<W>, pos: nat)
    | UpdateCas(row: Row<W>, pos: nat, t: bv16)
    | UpdateVisit(pos: nat)
    // path B up to the claim
    | WarmLoad(row: Row<W>)
    | WarmCas(row: Row<W>, cur: nat)
    // path C up to the claim: evict_one
    | Hand(row: Row<W>)
    | Sweeping(turn: SweepAt, row: Row<W>, pos: nat, t: bv16)
    // from the claim to the publication
    | Own(path: Path, at: OwnAt, row: Row<W>, pos: nat, t: bv16, m: nat, got: seq<Option<W>>)

  datatype State<+W> = State(slots: seq<Slot<W>>, len: nat, hand: nat, threads: seq<Local<W>>)

  ghost function NeedleFor<W>(c: Config<W>, k: Row<W>): bv16
    requires ValidConfig(c)
  {
    NeedleOf(c.scheme, k)
  }

  /** The tag a thread stores to publish key `k` at `pos`. */
  ghost function TagFor<W>(c: Config<W>, pos: nat, k: Row<W>): (t: bv16)
    requires ValidConfig(c) && pos < c.cap
    ensures IdOf(c.scheme.layout, t) == pos && Matches(c.scheme.layout, t, NeedleFor(c, k))
    ensures Live(t) && t != EMPTY
  {
    hide NewTag, IdOf, Matches, Live, NeedleOf;
    NewTagLive(c.scheme.layout, pos, c.scheme.hasher(k));
    NewTag(c.scheme.layout, pos, NeedleFor(c, k))
  }

  lemma NewTagLive(l: Layout, id: nat, hash: bv64)
    requires ValidLayout(l) && id < MAX_PER_SHARD
    ensures var t := NewTag(l, id, Needle(l, hash));
      IdOf(l, t) == id && Matches(l, t, Needle(l, hash)) && Live(t) && t != EMPTY
  {
    hide Pack, IdWord, ScanBits, Needle, HashMask;
    NewTagLaws(l, id, hash);
    SmallId(id);
    PackScan(l, id as bv16, Needle(l, hash));
  }

  // ---- rows and the words read so far ----

  /** All words of a row are there. */
  ghost function Somes<W>(row: Row<W>): (r: seq<Option<W>>)
    ensures |r| == |row| && forall j | 0 <= j < |r| :: r[j] == Some(row[j])
  {
    seq(|row|, j requires 0 <= j < |row| => Some(row[j]))
  }

  function Nones<W>(n: nat): (r: seq<Option<W>>)
    ensures |r| == n && forall j | 0 <= j < n :: r[j] == None
  {
    seq(n, _ => None)
  }

  /** The row, once all its words have been read. */
  function Whole<W>(got: seq<Option<W>>): (r: Option<Row<W>>)
    ensures r.Some? <==> forall j | 0 <= j < |got| :: got[j].Some?
    ensures r.Some? ==> |r.value| == |got| && forall j | 0 <= j < |got| :: got[j] == Some(r.value[j])
  {
    if forall j | 0 <= j < |got| :: got[j].Some? then
      Some(seq(|got|, j requires 0 <= j < |got| => got[j].value))
    else None
  }

  lemma WholeSomes<W>(row: Row<W>)
    ensures Whole(Somes(row)) == Some(row)
  {
    assert Whole(Somes(row)).value == row;
  }

  function WithWord<W>(got: seq<Option<W>>, j: nat, w: Option<W>): (r: seq<Option<W>>)
    ensures |r| == |got|
  {
    if j < |got| then got[j := w] else got
  }

  /** The words met in the first `m` places of the order are there. */
  ghost predicate ReadTo<W>(order: seq<nat>, m: nat, got: seq<Option<W>>) {
    m <= |order| && forall x | 0 <= x < m :: order[x] < |got| ==> got[order[x]].Some?
  }

  lemma AllRead<W>(order: seq<nat>, got: seq<Option<W>>)
    requires Covers(order, |got|) && ReadTo(order, |order|, got)
    ensures Whole(got).Some?
  {
    forall j | 0 <= j < |got| ensures got[j].Some? {
      assert j in order;
    }
  }

  ghost function Blank<W>(width: nat): Slot<W> { Slot(EMPTY, Nones(width), false, [], [], None, None) }

  ghost function Init<W>(c: Config<W>, threads: nat): State<W> {
    State(seq(RoundUp(c.cap), _ => Blank(Width(c))), 0, 0, seq(threads, _ => Idle))
  }

  // ---- one step ----

  ghost function At<W>(s: State<W>, pos: nat): Slot<W> {
    if pos < |s.slots| then s.slots[pos] else Blank(0)
  }

  ghost function WordOf<W>(slot: Slot<W>, j: nat): Option<W> {
    if j < |slot.words| then slot.words[j] else None
  }

  /** Only the thread moves on. */
  ghost function Go<W>(s: State<W>, i: nat, l: Local<W>): State<W>
    requires i < |s.threads|
  {
    s.(threads := s.threads[i := l])
  }

  /** The thread moves on and the position `pos` becomes `slot`. */
  ghost function Put<W>(s: State<W>, i: nat, l: Local<W>, pos: nat, slot: Slot<W>): State<W>
    requires i < |s.threads|
  {
    if pos < |s.slots| then s.(slots := s.slots[pos := slot], threads := s.threads[i := l]) else Go(s, i, l)
  }

  /** A successful compare-and-swap of the tag from live to EMPTY. */
  ghost function Claimed<W>(slot: Slot<W>, i: nat, how: Leave<W>, row: Row<W>): Slot<W> {
    Reserved(slot, i, row).(tag := EMPTY, left := slot.left + [how])
  }

  /** The slot is the thread's, to publish `row` in. */
  ghost function Reserved<W>(slot: Slot<W>, i: nat, row: Row<W>): Slot<W> {
    slot.(holder := Some(i), coming := Some(row))
  }

  /** One word of the entry is written. */
  ghost function Written<W>(slot: Slot<W>, row: Row<W>, j: nat): Slot<W> {
    if j < |row| then slot.(words := WithWord(slot.words, j, Some(row[j]))) else slot
  }

  /** The tag is stored: the entry is published and the slot is no longer held. */
  ghost function Published<W>(slot: Slot<W>, tag: bv16, row: Row<W>): Slot<W> {
    slot.(tag := tag, pubs := slot.pubs + [row], holder := None, coming := None)
  }

  /** The eviction that claimed this slot last returns `row`. */
  ghost function Returned<W>(slot: Slot<W>, row: Option<Row<W>>): Slot<W> {
    if slot.left == [] then slot else slot.(left := slot.left[|slot.left| - 1 := ByEviction(row)])
  }

  ghost function At0<W>(call: Call<W>, pos: nat): Local<W> {
    Scan(call, LoadTag, pos, EMPTY, 0, 0, [])
  }

  function ReadOrder<W>(c: Config<W>, call: Call<W>): seq<nat> {
    if call.CallGet? then c.orders.get else c.orders.find
  }

  /** The scan every call starts with, and what it leads to. */
  ghost function StepScan<W>(c: Config<W>, s: State<W>, i: nat): State<W>
    requires ValidConfig(c) && i < |s.threads| && s.threads[i].Scan?
  {
    var ly := c.scheme.layout;
    var l := s.threads[i];
    var tag := At(s, l.pos).tag;
    match l.look
    case LoadTag =>
      if l.pos >= |s.slots| then
        Go(s, i, match l.call case CallGet(_) => Finished(Got(None)) case CallInsert(row) => WarmLoad(row))
      else if !Matches(ly, tag, NeedleFor(c, CallKey(c, l.call))) then Go(s, i, At0(l.call, l.pos + 1))
      else Go(s, i, Scan(l.call, ReadWord, l.pos, tag, |At(s, l.pos).pubs|, 0, Nones(Width(c))))
    case ReadWord =>
      var order := ReadOrder(c, l.call);
      if l.m >= |order| then s
      else
        var w := WordOf(At(s, IdOf(ly, l.t)), order[l.m]);
        Go(s, i, l.(look := if l.m + 1 < |order| then ReadWord else CheckTag, m := l.m + 1,
                    got := WithWord(l.got, order[l.m], w)))
    case CheckTag =>
      var row := Whole(l.got);
      if tag != l.t || !Live(tag) || row.None? || KeyOf(c, row.value) != CallKey(c, l.call) then
        Go(s, i, At0(l.call, l.pos + 1))
      else Go(s, i, match l.call
                    case CallGet(_) => Touch(false, l.pos, Some(ValueOf(c, row.value)))
                    case CallInsert(newRow) => UpdateLoad(newRow, l.pos))
  }

  /** From the scan to a claim, and the steps after the last publication. */
  ghost function StepClaim<W>(c: Config<W>, s: State<W>, i: nat): State<W>
    requires ValidConfig(c) && i < |s.threads|
  {
    match s.threads[i]
    case Touch(marking, pos, value) =>
      if marking then Put(s, i, Finished(Got(value)), pos, At(s, pos).(visited := true))
      else if At(s, pos).visited then Go(s, i, Finished(Got(value)))
      else Go(s, i, Touch(true, pos, value))
    case UpdateLoad(row, pos) =>
      var t := At(s, pos).tag;
      if !Matches(c.scheme.layout, t, NeedleFor(c, KeyOf(c, row))) then Go(s, i, At0(CallInsert(row), 0))
      else Go(s, i, UpdateCas(row, pos, t))
    case UpdateCas(row, pos, t) =>
      if At(s, pos).tag != t then Go(s, i, At0(CallInsert(row), 0))
      else Put(s, i, Own(Updating, WriteWord, row, pos, t, 0, []), pos, Claimed(At(s, pos), i, ByUpdate, row))
    case UpdateVisit(pos) => Put(s, i, Finished(Inserted(None)), pos, At(s, pos).(visited := true))
    case WarmLoad(row) => Go(s, i, WarmCas(row, s.len))
    case WarmCas(row, cur) =>
      if cur >= c.cap then Go(s, i, Hand(row))
      else if s.len != cur then Go(s, i, WarmCas(row, s.len))
      else
        Put(s, i, Own(Warming, WriteWord, row, cur, EMPTY, 0, []), cur, Reserved(At(s, cur), i, row))
          .(len := s.len + 1)
    case Hand(row) => Go(s, i, Sweeping(SeeTag, row, s.hand % c.cap, EMPTY)).(hand := s.hand + 1)
    case Sweeping(turn, row, pos, t) =>
      (match turn
       case SeeTag =>
         var tag := At(s, pos).tag;
         if !Live(tag) then Go(s, i, Hand(row)) else Go(s, i, Sweeping(TestBit, row, pos, tag))
       case TestBit => Go(s, i, Sweeping(if At(s, pos).visited then DropBit else CasTag, row, pos, t))
       case DropBit => Put(s, i, Hand(row), pos, At(s, pos).(visited := false))
       case CasTag =>
         if At(s, pos).tag != t then Go(s, i, Hand(row))
         else
           Put(s, i, Own(Replacing, Unvisit, row, pos, t, 0, Nones(Width(c))), pos,
               Claimed(At(s, pos), i, ByEviction(None), row)))
    case _ => s
  }

  /** The owner's steps: take the evicted entry, write the new one, publish. */
  ghost function StepOwn<W>(c: Config<W>, s: State<W>, i: nat): State<W>
    requires ValidConfig(c) && i < |s.threads| && s.threads[i].Own?
  {
    var l := s.threads[i];
    var slot := At(s, l.pos);
    match l.at
    case Unvisit => Put(s, i, l.(at := TakeWord), l.pos, slot.(visited := false))
    case TakeWord =>
      var order := c.orders.take;
      if l.m >= |order| then s
      else
        var w := WordOf(At(s, IdOf(c.scheme.layout, l.t)), order[l.m]);
        var got := WithWord(l.got, order[l.m], w);
        Go(s, i, if l.m + 1 < |order| then l.(at := TakeWord, m := l.m + 1, got := got)
                 else l.(at := WriteWord, m := 0, got := got))
    case WriteWord =>
      var order := c.orders.write;
      if l.m >= |order| then s
      else
        var next := if l.m + 1 < |order| then WriteWord else if l.path.Updating? then Publish else ClearBit;
        Put(s, i, l.(at := next, m := l.m + 1), l.pos, Written(slot, l.row, order[l.m]))
    case ClearBit => Put(s, i, l.(at := Publish), l.pos, slot.(visited := false))
    case Publish =>
      if l.pos >= c.cap then s
      else
        var tag := TagFor(c, l.pos, KeyOf(c, l.row));
        match l.path
        case Updating => Put(s, i, UpdateVisit(l.pos), l.pos, Published(slot, tag, l.row))
        case Warming => Put(s, i, Finished(Inserted(None)), l.pos, Published(slot, tag, l.row))
        case Replacing =>
          Put(s, i, Finished(Inserted(Whole(l.got))), l.pos,
              Published(Returned(slot, Whole(l.got)), tag, l.row))
  }

  /** Thread `i` takes its next step; `call` is what it calls if it is idle. */
  ghost function Step<W>(c: Config<W>, s: State<W>, i: nat, call: Call<W>): State<W>
    requires ValidConfig(c) && i < |s.threads|
  {
    match s.threads[i]
    case Idle => Go(s, i, At0(call, 0))
    case Finished(_) => Go(s, i, Idle)
    case Scan(_, _, _, _, _, _, _) => StepScan(c, s, i)
    case Own(_, _, _, _, _, _, _) => StepOwn(c, s, i)
    case _ => StepClaim(c, s, i)
  }

  // ---- ownership and the invariant ----

  /** The position the thread works at, if any. */
  function PosOf<W>(l: Local<W>): nat {
    if l.Idle? || l.Finished? || l.WarmLoad? || l.WarmCas? || l.Hand? then 0 else l.pos
  }

  ghost predicate Last<T>(s: seq<T>, x: T) { s != [] && s[|s| - 1] == x }

  /** The slot holds exactly the entry published last. */
  ghost predicate HoldsLast<W>(slot: Slot<W>) {
    slot.pubs != [] && slot.words == Somes(slot.pubs[|slot.pubs| - 1])
  }

  /** `below` says whether the position is below `len`. */
  ghost predicate SlotOk<W>(c: Config<W>, pos: nat, below: bool, slot: Slot<W>)
    requires ValidConfig(c) && (below ==> pos < c.cap)
  {
    && |slot.words| == Width(c)
    && (forall m | 0 <= m < |slot.pubs| :: IsEntry(c, slot.pubs[m]))
    && (slot.coming.Some? ==> IsEntry(c, slot.coming.value))
    && (slot.pubs != [] ==> below)
    && (slot.tag == EMPTY ==> (slot.holder.Some? <==> below))
    && (slot.tag != EMPTY ==>
          && slot.holder.None? && HoldsLast(slot)
          && slot.tag == TagFor(c, pos, KeyOf(c, slot.pubs[|slot.pubs| - 1])))
    && (slot.holder.Some? <==> slot.coming.Some?)
    && WordsOk(slot)
    && |slot.pubs| == |slot.left| + (if slot.tag != EMPTY then 1 else 0)
    && LeavesOk(slot.left, slot.pubs, slot.holder.Some?)
  }

  /** The word is that of the entry published last, or already that of the next. */
  ghost predicate WordOk<W>(slot: Slot<W>, j: nat)
    requires slot.pubs != [] && j < |slot.words|
  {
    var last := slot.pubs[|slot.pubs| - 1];
    || (j < |last| && slot.words[j] == Some(last[j]))
    || (slot.coming.Some? && j < |slot.coming.value| && slot.words[j] == Some(slot.coming.value[j]))
  }

  ghost predicate WordsOk<W>(slot: Slot<W>) {
    slot.pubs != [] ==> forall j | 0 <= j < |slot.words| :: WordOk(slot, j)
  }

  /** The entries written here in order: those published, and the one being published. */
  ghost function Rows<W>(slot: Slot<W>): seq<Row<W>> {
    slot.pubs + if slot.coming.Some? then [slot.coming.value] else []
  }

  /** `w` is word `j` of the entry `a` written here, at publication `n` or later. */
  ghost predicate WordAt<W>(slot: Slot<W>, n: nat, a: nat, j: nat, w: W) {
    n <= a + 1 && a < |Rows(slot)| && j < |Rows(slot)[a]| && Rows(slot)[a][j] == w
  }

  ghost predicate WordSeen<W>(slot: Slot<W>, n: nat, j: nat, w: W) {
    exists a :: WordAt(slot, n, a, j, w)
  }

  /** Word `j`, read since publication `n`: of that entry unless the slot was claimed since. */
  ghost predicate ReadOk<W>(slot: Slot<W>, n: nat, j: nat, w: W) {
    && WordSeen(slot, n, j, w)
    && (n == |slot.pubs| && slot.tag != EMPTY ==>
          0 < n && j < |slot.pubs[n - 1]| && slot.pubs[n - 1][j] == w)
  }

  /** An eviction returns the entry it claimed, or is the last and still holds the slot. */
  ghost predicate LeavesOk<W>(left: seq<Leave<W>>, pubs: seq<Row<W>>, held: bool)
    requires |left| <= |pubs|
  {
    forall m | 0 <= m < |left| && left[m].ByEviction? ::
      if left[m].returned.Some? then left[m].returned.value == pubs[m] else held && m == |left| - 1
  }

  /** `t` is the tag of publication `n` here, and `got` has words read since. */
  ghost predicate Window<W>(c: Config<W>, pos: nat, slot: Slot<W>, t: bv16, n: nat, got: seq<Option<W>>)
    requires ValidConfig(c)
  {
    && pos < c.cap && 1 <= n <= |slot.pubs| && |got| == Width(c)
    && t == TagFor(c, pos, KeyOf(c, slot.pubs[n - 1]))
    && forall j | 0 <= j < |got| && got[j].Some? :: ReadOk(slot, n, j, got[j].value)
  }

  /** The words written in the first `m` places of the order are there. */
  ghost predicate WroteTo<W>(order: seq<nat>, m: nat, words: seq<Option<W>>, row: Row<W>) {
    m <= |order| && forall x | 0 <= x < m ::
      order[x] < |words| && order[x] < |row| ==> words[order[x]] == Some(row[order[x]])
  }

  /** The owner has written what its steps so far say, and read what it claimed. */
  ghost predicate Holds<W>(c: Config<W>, i: nat, l: Local<W>, slot: Slot<W>)
    requires ValidConfig(c) && l.Own?
  {
    && slot.tag == EMPTY && slot.holder == Some(i) && slot.coming == Some(l.row)
    && (l.at.WriteWord? ==> l.m < |c.orders.write| && WroteTo(c.orders.write, l.m, slot.words, l.row))
    && (l.at.ClearBit? || l.at.Publish? ==> slot.words == Somes(l.row))
    && (l.at.Unvisit? || l.at.TakeWord? ==> l.path.Replacing?)
    && match l.path
       case Updating => Last(slot.left, ByUpdate)
       case Warming => slot.pubs == []
       case Replacing => IdOf(c.scheme.layout, l.t) == l.pos && Evicting(c, l, slot)
  }

  /** The slot was claimed by an eviction; `got` has words of the entry it claimed. */
  ghost predicate Evicting<W>(c: Config<W>, l: Local<W>, slot: Slot<W>)
    requires l.Own?
  {
    && slot.pubs != [] && Last(slot.left, ByEviction(None))
    && var last := slot.pubs[|slot.pubs| - 1];
       if l.at.Unvisit? || l.at.TakeWord? then
         && HoldsLast(slot) && |l.got| == Width(c) && l.m < |c.orders.take| && (l.at.Unvisit? ==> l.m == 0)
         && ReadTo(c.orders.take, l.m, l.got)
         && forall j | 0 <= j < |l.got| && l.got[j].Some? :: j < |last| && l.got[j] == Some(last[j])
       else l.got == Somes(last)
  }

  ghost predicate Reading<W>(c: Config<W>, l: Local<W>)
    requires l.Scan?
  {
    var order := ReadOrder(c, l.call);
    && ReadTo(order, l.m, l.got)
    && (l.look.ReadWord? ==> l.m < |order|) && (l.look.CheckTag? ==> l.m == |order|)
  }

  ghost predicate ThreadOk<W>(c: Config<W>, i: nat, l: Local<W>, slot: Slot<W>)
    requires ValidConfig(c)
  {
    match l
    case Scan(call, look, pos, t, n, m, got) =>
      && Fits(c, call)
      && (!look.LoadTag? ==>
            && Window(c, pos, slot, t, n, got) && Reading(c, l)
            && Matches(c.scheme.layout, t, NeedleFor(c, CallKey(c, call))))
    case Touch(_, pos, value) => pos < c.cap && value.Some?
    case UpdateLoad(row, pos) => pos < c.cap && IsEntry(c, row)
    case UpdateCas(row, pos, t) =>
      && pos < c.cap && IsEntry(c, row) && t != EMPTY
      && Matches(c.scheme.layout, t, NeedleFor(c, KeyOf(c, row)))
    case UpdateVisit(pos) => pos < c.cap
    case WarmLoad(row) => IsEntry(c, row)
    case WarmCas(row, _) => IsEntry(c, row)
    case Hand(row) => IsEntry(c, row)
    case Sweeping(turn, row, pos, t) =>
      pos < c.cap && IsEntry(c, row) && (turn.SeeTag? || (t != EMPTY && IdOf(c.scheme.layout, t) == pos))
    case Own(_, _, row, pos, _, _, _) => pos < c.cap && IsEntry(c, row) && Holds(c, i, l, slot)
    case _ => true
  }

  ghost predicate OwnerIs<W>(s: State<W>, i: nat, pos: nat) {
    i < |s.threads| && s.threads[i].Own? && PosOf(s.threads[i]) == pos
  }

  ghost predicate Inv<W>(c: Config<W>, s: State<W>) {
    && ValidConfig(c)
    && |s.slots| == RoundUp(c.cap)
    && s.len <= c.cap
    && (forall p | 0 <= p < |s.slots| :: SlotOk(c, p, p < s.len, s.slots[p]))
    && (forall p | 0 <= p < |s.slots| ::
          s.slots[p].holder.Some? ==> OwnerIs(s, s.slots[p].holder.value, p))
    && (forall i | 0 <= i < |s.threads| :: ThreadOk(c, i, s.threads[i], At(s, PosOf(s.threads[i]))))
  }

  // ---- a step touches one slot and one thread ----

  /** What one step of thread `i` may do to a slot. */
  ghost predicate Evolves<W>(a: Slot<W>, b: Slot<W>, i: nat) {
    && (a.holder.None? || a.holder == Some(i) || b == a.(visited := b.visited))
    && (b.holder.None? || b.holder == Some(i) || b.holder == a.holder)
    && a.pubs <= b.pubs && Rows(a) <= Rows(b)
    && (|b.pubs| == |a.pubs| && b.tag != EMPTY ==> a.tag != EMPTY && b.words == a.words)
  }

  lemma MarkHolds<W>(slot: Slot<W>, visited: bool)
    ensures HoldsLast(slot.(visited := visited)) <==> HoldsLast(slot)
  {
  }

  /** The words stay in order while the entry being published, if any, stays the same. */
  lemma SameWords<W>(a: Slot<W>, b: Slot<W>)
    requires WordsOk(a) && b.words == a.words && b.pubs == a.pubs && (a.coming.Some? ==> b.coming == a.coming)
    ensures WordsOk(b)
  {
    if b.pubs != [] {
      forall j | 0 <= j < |b.words| ensures WordOk(b, j) { assert WordOk(a, j); }
    }
  }

  lemma Stable<W>(c: Config<W>, j: nat, l: Local<W>, a: Slot<W>, b: Slot<W>, i: nat)
    requires ValidConfig(c) && ThreadOk(c, j, l, a) && Evolves(a, b, i) && i != j
    ensures ThreadOk(c, j, l, b)
  {
    hide TagFor, IdOf, Live, Matches, NeedleFor, ReadOk, Rows, Reading, HoldsLast, WroteTo, ReadTo;
    MarkHolds(a, b.visited);
    if l.Scan? && !l.look.LoadTag? {
      forall x | 0 <= x < |l.got| && l.got[x].Some? ensures ReadOk(b, l.n, x, l.got[x].value) {
        SeenStays(a, b, l.n, x, l.got[x].value);
      }
    }
  }

  /** What was read stays a word of one of the entries written, as more are written. */
  lemma SeenStays<W>(a: Slot<W>, b: Slot<W>, n: nat, j: nat, w: W)
    requires a.pubs <= b.pubs && Rows(a) <= Rows(b)
    requires |b.pubs| == |a.pubs| && b.tag != EMPTY ==> a.tag != EMPTY
    requires n <= |a.pubs| && ReadOk(a, n, j, w)
    ensures ReadOk(b, n, j, w)
  {
    hide Rows;
    var x :| WordAt(a, n, x, j, w);
    assert WordAt(b, n, x, j, w);
  }

  /** One step of thread `i` at position `p` keeps the invariant if it keeps it there. */
  lemma Preserve<W>(c: Config<W>, s: State<W>, s': State<W>, i: nat, p: nat)
    requires Inv(c, s) && i < |s.threads| == |s'.threads| && p < |s.slots| == |s'.slots|
    requires s'.slots == s.slots[p := s'.slots[p]] && s'.threads == s.threads[i := s'.threads[i]]
    requires s'.len == s.len || (s'.len == s.len + 1 && p == s.len && p < c.cap)
    requires SlotOk(c, p, p < s'.len, s'.slots[p])
    requires Evolves(s.slots[p], s'.slots[p], i)
    requires ThreadOk(c, i, s'.threads[i], At(s', PosOf(s'.threads[i])))
    requires s.threads[i].Own? ==> PosOf(s.threads[i]) == p
    requires s'.threads[i].Own? ==> PosOf(s'.threads[i]) == p
    requires s'.slots[p].holder == Some(i) ==> s'.threads[i].Own?
    ensures Inv(c, s')
  {
    hide TagFor, SlotOk, ThreadOk, RoundUp;
    forall q | 0 <= q < |s'.slots|
      ensures SlotOk(c, q, q < s'.len, s'.slots[q])
      ensures s'.slots[q].holder.Some? ==> OwnerIs(s', s'.slots[q].holder.value, q)
    {
      assert q != p ==> s'.slots[q] == s.slots[q] && (q < s'.len <==> q < s.len);
    }
    forall j | 0 <= j < |s'.threads|
      ensures ThreadOk(c, j, s'.threads[j], At(s', PosOf(s'.threads[j])))
    {
      if j != i {
        if PosOf(s.threads[j]) == p {
          Stable(c, j, s.threads[j], s.slots[p], s'.slots[p], i);
        }
      }
    }
  }

  lemma Moves<W>(c: Config<W>, s: State<W>, i: nat, l: Local<W>)
    requires Inv(c, s) && i < |s.threads|
    requires ThreadOk(c, i, l, At(s, PosOf(l)))
    requires s.threads[i].Own? <==> l.Own?
    requires l.Own? ==> PosOf(l) == PosOf(s.threads[i]) && PosOf(l) < |s.slots|
    ensures Inv(c, Go(s, i, l))
  {
    hide TagFor, ThreadOk, RoundUp;
    var p := if l.Own? then PosOf(l) else 0;
    assert s.slots == s.slots[p := s.slots[p]];
    Preserve(c, s, Go(s, i, l), i, p);
  }

  /** As `Preserve`, for a step that leaves `len` alone. */
  lemma Puts<W>(c: Config<W>, s: State<W>, i: nat, l: Local<W>, p: nat, slot: Slot<W>)
    requires Inv(c, s) && i < |s.threads| && p < c.cap
    requires SlotOk(c, p, p < s.len, slot) && Evolves(s.slots[p], slot, i)
    requires PosOf(l) == p || !l.Own?
    requires ThreadOk(c, i, l, if PosOf(l) == p then slot else At(s, PosOf(l)))
    requires s.threads[i].Own? ==> PosOf(s.threads[i]) == p
    requires slot.holder == Some(i) ==> l.Own?
    ensures Inv(c, Put(s, i, l, p, slot))
  {
    hide TagFor, ThreadOk, SlotOk, Evolves;
    Preserve(c, s, Put(s, i, l, p, slot), i, p);
  }

  // ---- what a step does to its slot ----

  /** What is true of the slot a thread is at. */
  lemma Here<W>(c: Config<W>, s: State<W>, i: nat)
    requires Inv(c, s) && i < |s.threads|
    ensures ValidConfig(c) && c.cap <= |s.slots| && s.len <= c.cap
    ensures var l := s.threads[i];
      ThreadOk(c, i, l, At(s, PosOf(l))) &&
      (PosOf(l) < c.cap ==> SlotOk(c, PosOf(l), PosOf(l) < s.len, At(s, PosOf(l))))
  {
    hide ThreadOk, SlotOk, RoundUp;
  }

  lemma ClaimSlot<W>(c: Config<W>, p: nat, below: bool, slot: Slot<W>, i: nat, how: Leave<W>, row: Row<W>)
    requires ValidConfig(c) && p < c.cap && SlotOk(c, p, below, slot) && slot.tag != EMPTY
    requires (how == ByUpdate || how == ByEviction(None)) && IsEntry(c, row)
    ensures var b := Claimed(slot, i, how, row);
      SlotOk(c, p, below, b) && Evolves(slot, b, i) && Last(b.left, how) && HoldsLast(b)
  {
    hide TagFor, WordsOk;
    SameWords(slot, Claimed(slot, i, how, row));
  }

  lemma WriteSlot<W>(c: Config<W>, p: nat, below: bool, slot: Slot<W>, i: nat, row: Row<W>, j: nat)
    requires ValidConfig(c) && p < c.cap && SlotOk(c, p, below, slot) && slot.tag == EMPTY && slot.holder == Some(i)
    requires slot.coming == Some(row) && j < Width(c)
    ensures var b := Written(slot, row, j);
      && SlotOk(c, p, below, b) && Evolves(slot, b, i) && b == slot.(words := slot.words[j := Some(row[j])])
  {
    hide TagFor, LeavesOk;
    var b := Written(slot, row, j);
    if slot.pubs != [] {
      forall x | 0 <= x < |b.words| ensures WordOk(b, x) { assert WordOk(slot, x); }
    }
  }

  lemma MarkSlot<W>(c: Config<W>, p: nat, below: bool, slot: Slot<W>, i: nat, visited: bool)
    requires ValidConfig(c) && p < c.cap && SlotOk(c, p, below, slot)
    ensures var b := slot.(visited := visited); SlotOk(c, p, below, b) && Evolves(slot, b, i)
  {
    hide TagFor, LeavesOk, WordsOk;
    SameWords(slot, slot.(visited := visited));
  }

  lemma PublishSlot<W>(c: Config<W>, p: nat, below: bool, slot: Slot<W>, i: nat, row: Row<W>)
    requires ValidConfig(c) && p < c.cap && SlotOk(c, p, below, slot) && !Last(slot.left, ByEviction(None))
    requires slot.tag == EMPTY && slot.holder == Some(i) && slot.words == Somes(row)
    requires slot.coming == Some(row)
    ensures var b := Published(slot, TagFor(c, p, KeyOf(c, row)), row);
      SlotOk(c, p, below, b) && Evolves(slot, b, i)
  {
    hide TagFor;
  }

  lemma ReturnSlot<W>(c: Config<W>, p: nat, below: bool, slot: Slot<W>, i: nat, l: Local<W>)
    requires ValidConfig(c) && p < c.cap && SlotOk(c, p, below, slot)
    requires l.Own? && l.path.Replacing? && l.at.Publish? && Holds(c, i, l, slot)
    ensures var b := Returned(slot, Whole(l.got));
      && SlotOk(c, p, below, b) && !Last(b.left, ByEviction(None))
      && b == slot.(left := b.left)
    ensures Whole(l.got) == Some(slot.pubs[|slot.pubs| - 1])
  {
    hide TagFor, IdOf, HoldsLast, WordsOk;
    WholeSomes(slot.pubs[|slot.pubs| - 1]);
    SameWords(slot, Returned(slot, Whole(l.got)));
  }

  /** There is at least one word, so at least one place in every order. */
  lemma OrderStarts<W>(c: Config<W>)
    requires ValidConfig(c)
    ensures 0 < |c.orders.get| && 0 < |c.orders.find| && 0 < |c.orders.take| && 0 < |c.orders.write|
  {
    assert 0 in c.orders.get && 0 in c.orders.find && 0 in c.orders.take && 0 in c.orders.write;
  }

  // ---- every step keeps the invariant ----

  lemma NoMatchEmpty<W>(c: Config<W>, k: Row<W>)
    requires ValidConfig(c)
    ensures !Matches(c.scheme.layout, EMPTY, NeedleFor(c, k))
  {
    hide Needle, Matches;
    NeedleShape(c.scheme.layout, c.scheme.hasher(k));
    if Matches(c.scheme.layout, EMPTY, NeedleFor(c, k)) {
      MatchIsLive(c.scheme.layout, EMPTY, NeedleFor(c, k));
    }
  }

  lemma NotLiveEmpty()
    ensures !Live(EMPTY)
  {
  }

  /** A live tag opens a reader's window. */
  lemma Opens<W>(c: Config<W>, s: State<W>, pos: nat)
    requires Inv(c, s) && At(s, pos).tag != EMPTY
    ensures pos < s.len && IdOf(c.scheme.layout, At(s, pos).tag) == pos
    ensures Window(c, pos, At(s, pos), At(s, pos).tag, |At(s, pos).pubs|, Nones(Width(c)))
  {
    hide TagFor, IdOf, Live, LeavesOk;
    assert SlotOk(c, pos, pos < s.len, s.slots[pos]);
  }

  /** Reading a word inside the window: the slot is initialised and in bounds. */
  lemma ReadsWord<W>(c: Config<W>, s: State<W>, pos: nat, t: bv16, n: nat, got: seq<Option<W>>, j: nat)
    requires Inv(c, s) && Window(c, pos, At(s, pos), t, n, got) && j < Width(c)
    ensures IdOf(c.scheme.layout, t) == pos < s.len
    ensures var w := WordOf(At(s, pos), j);
      w.Some? && Window(c, pos, At(s, pos), t, n, WithWord(got, j, w))
  {
    hide TagFor, IdOf, Live, LeavesOk;
    var slot := At(s, pos);
    assert SlotOk(c, pos, pos < s.len, slot) && WordOk(slot, j);
    var last := |slot.pubs| - 1;
    var a := if slot.words[j] == Some(slot.pubs[last][j]) then last else last + 1;
    assert WordAt(slot, n, a, j, slot.words[j].value);
  }

  lemma ScanKeeps<W>(c: Config<W>, s: State<W>, i: nat)
    requires Inv(c, s) && i < |s.threads| && s.threads[i].Scan?
    ensures Inv(c, StepScan(c, s, i))
  {
    hide TagFor, IdOf, Matches, Live, RoundUp, SlotOk, Inv, Window, Put, NeedleFor, Covers;
    Here(c, s, i);
    var l := s.threads[i];
    var slot := At(s, l.pos);
    match l.look
    case LoadTag =>
      NoMatchEmpty(c, CallKey(c, l.call));
      Moves(c, s, i, Finished(Got(None)));
      if l.call.CallInsert? { Moves(c, s, i, WarmLoad(l.call.row)); }
      Moves(c, s, i, At0(l.call, l.pos + 1));
      if Matches(c.scheme.layout, slot.tag, NeedleFor(c, CallKey(c, l.call))) {
        Opens(c, s, l.pos);
        OrderStarts(c);
        Moves(c, s, i, Scan(l.call, ReadWord, l.pos, slot.tag, |slot.pubs|, 0, Nones(Width(c))));
      }
    case ReadWord => ReadKeeps(c, s, i);
    case CheckTag => CheckKeeps(c, s, i);
  }

  lemma OrderWithin<W>(c: Config<W>, order: seq<nat>, m: nat)
    requires Covers(order, Width(c)) && m < |order|
    ensures order[m] < Width(c)
  {
  }

  /** Any of the orders meets words only, and all of them. */
  lemma OrdersCover<W>(c: Config<W>, call: Call<W>)
    requires ValidConfig(c)
    ensures Covers(ReadOrder(c, call), Width(c)) && Covers(c.orders.take, Width(c)) && Covers(c.orders.write, Width(c))
  {
  }

  lemma ReadKeeps<W>(c: Config<W>, s: State<W>, i: nat)
    requires Inv(c, s) && i < |s.threads| && s.threads[i].Scan? && s.threads[i].look.ReadWord?
    ensures Inv(c, StepScan(c, s, i))
  {
    hide TagFor, IdOf, Matches, Live, RoundUp, SlotOk, Inv, Window, Put, NeedleFor, Covers;
    Here(c, s, i);
    var l := s.threads[i];
    var order := ReadOrder(c, l.call);
    OrdersCover(c, l.call);
    OrderWithin(c, order, l.m);
    ReadsWord(c, s, l.pos, l.t, l.n, l.got, order[l.m]);
    var w := WordOf(At(s, l.pos), order[l.m]);
    ReadOne(order, l.m, l.got, w);
    Moves(c, s, i, l.(look := if l.m + 1 < |order| then ReadWord else CheckTag, m := l.m + 1,
                      got := WithWord(l.got, order[l.m], w)));
  }

  lemma ReadOne<W>(order: seq<nat>, m: nat, got: seq<Option<W>>, w: Option<W>)
    requires ReadTo(order, m, got) && m < |order| && w.Some?
    ensures ReadTo(order, m + 1, WithWord(got, order[m], w))
  {
  }

  lemma CheckKeeps<W>(c: Config<W>, s: State<W>, i: nat)
    requires Inv(c, s) && i < |s.threads| && s.threads[i].Scan? && s.threads[i].look.CheckTag?
    ensures Inv(c, StepScan(c, s, i))
  {
    hide TagFor, IdOf, Matches, Live, RoundUp, SlotOk, Inv, Put, NeedleFor;
    Here(c, s, i);
    var l := s.threads[i];
    Moves(c, s, i, At0(l.call, l.pos + 1));
    match l.call
    case CallGet(_) =>
      var row := Whole(l.got);
      if row.Some? { Moves(c, s, i, Touch(false, l.pos, Some(ValueOf(c, row.value)))); }
    case CallInsert(row) => Moves(c, s, i, UpdateLoad(row, l.pos));
  }

  lemma ReserveKeeps<W>(c: Config<W>, s: State<W>, i: nat, row: Row<W>)
    requires Inv(c, s) && i < |s.threads| && s.threads[i] == WarmCas(row, s.len) && s.len < c.cap
    ensures Inv(c, StepClaim(c, s, i))
  {
    hide TagFor, RoundUp, Covers;
    Here(c, s, i);
    OrderStarts(c);
    assert SlotOk(c, s.len, false, s.slots[s.len]);
    Preserve(c, s, StepClaim(c, s, i), i, s.len);
  }

  /** Anyone may set or clear a visited bit, whoever holds the slot. */
  lemma VisitKeeps<W>(c: Config<W>, s: State<W>, i: nat, l: Local<W>, pos: nat, visited: bool)
    requires Inv(c, s) && i < |s.threads| && pos < c.cap && !s.threads[i].Own?
    requires l.Idle? || l.Finished? || (l.Hand? && IsEntry(c, l.row))
    ensures Inv(c, Put(s, i, l, pos, At(s, pos).(visited := visited)))
  {
    hide TagFor, SlotOk, RoundUp, Evolves;
    MarkSlot(c, pos, pos < s.len, At(s, pos), i, visited);
    assert s.slots[pos].holder == Some(i) ==> OwnerIs(s, i, pos);
    Puts(c, s, i, l, pos, At(s, pos).(visited := visited));
  }

  lemma ClaimKeeps<W>(c: Config<W>, s: State<W>, i: nat)
    requires Inv(c, s) && i < |s.threads|
    requires !s.threads[i].Sweeping?
    ensures Inv(c, StepClaim(c, s, i))
  {
    hide TagFor, IdOf, Matches, Live, RoundUp, SlotOk, Inv, Put, NeedleFor, LeavesOk, Evolves, Covers, HoldsLast;
    Here(c, s, i);
    OrderStarts(c);
    match s.threads[i]
    case Touch(marking, pos, value) =>
      Moves(c, s, i, Finished(Got(value)));
      Moves(c, s, i, Touch(true, pos, value));
      VisitKeeps(c, s, i, Finished(Got(value)), pos, true);
    case UpdateLoad(row, pos) =>
      NoMatchEmpty(c, KeyOf(c, row));
      Moves(c, s, i, At0(CallInsert(row), 0));
      if Matches(c.scheme.layout, At(s, pos).tag, NeedleFor(c, KeyOf(c, row))) {
        Moves(c, s, i, UpdateCas(row, pos, At(s, pos).tag));
      }
    case UpdateCas(row, pos, t) =>
      Moves(c, s, i, At0(CallInsert(row), 0));
      if At(s, pos).tag == t {
        ClaimSlot(c, pos, pos < s.len, At(s, pos), i, ByUpdate, row);
        Puts(c, s, i, Own(Updating, WriteWord, row, pos, t, 0, []), pos, Claimed(At(s, pos), i, ByUpdate, row));
      }
    case UpdateVisit(pos) => VisitKeeps(c, s, i, Finished(Inserted(None)), pos, true);
    case WarmLoad(row) => Moves(c, s, i, WarmCas(row, s.len));
    case WarmCas(row, cur) =>
      Moves(c, s, i, Hand(row));
      Moves(c, s, i, WarmCas(row, s.len));
      if cur < c.cap && s.len == cur { ReserveKeeps(c, s, i, row); }
    case Hand(row) =>
      Moves(c, s, i, Sweeping(SeeTag, row, s.hand % c.cap, EMPTY));
      HandKeeps(c, Go(s, i, Sweeping(SeeTag, row, s.hand % c.cap, EMPTY)), s.hand + 1);
    case _ =>
  }

  lemma SweepKeeps<W>(c: Config<W>, s: State<W>, i: nat)
    requires Inv(c, s) && i < |s.threads| && s.threads[i].Sweeping?
    ensures Inv(c, StepClaim(c, s, i))
  {
    hide TagFor, IdOf, Matches, Live, RoundUp, SlotOk, Inv, Put, NeedleFor, LeavesOk, Evolves, Covers;
    Here(c, s, i);
    var Sweeping(turn, row, pos, t) := s.threads[i];
    var slot := At(s, pos);
    Moves(c, s, i, Hand(row));
    match turn
    case SeeTag =>
      NotLiveEmpty();
      if slot.tag != EMPTY {
        Opens(c, s, pos);
        Moves(c, s, i, Sweeping(TestBit, row, pos, slot.tag));
      }
    case TestBit =>
      Moves(c, s, i, Sweeping(DropBit, row, pos, t));
      Moves(c, s, i, Sweeping(CasTag, row, pos, t));
    case DropBit => VisitKeeps(c, s, i, Hand(row), pos, false);
    case CasTag =>
      if slot.tag == t {
        OrderStarts(c);
        var b := Claimed(slot, i, ByEviction(None), row);
        ClaimSlot(c, pos, pos < s.len, slot, i, ByEviction(None), row);
        Puts(c, s, i, Own(Replacing, Unvisit, row, pos, t, 0, Nones(Width(c))), pos, b);
      }
  }

  lemma HandKeeps<W>(c: Config<W>, s: State<W>, hand: nat)
    requires Inv(c, s)
    ensures Inv(c, s.(hand := hand))
  {
    hide ThreadOk, SlotOk, RoundUp;
    var s' := s.(hand := hand);
    forall i | 0 <= i < |s'.threads|
      ensures ThreadOk(c, i, s'.threads[i], At(s', PosOf(s'.threads[i])))
    {
      assert ThreadOk(c, i, s.threads[i], At(s, PosOf(s.threads[i])));
    }
    forall p | 0 <= p < |s'.slots| && s'.slots[p].holder.Some?
      ensures OwnerIs(s', s'.slots[p].holder.value, p)
    {
      assert OwnerIs(s, s.slots[p].holder.value, p);
    }
  }

  lemma OwnKeeps<W>(c: Config<W>, s: State<W>, i: nat)
    requires Inv(c, s) && i < |s.threads| && s.threads[i].Own?
    ensures Inv(c, StepOwn(c, s, i))
  {
    hide TagFor, IdOf, Matches, Live, RoundUp, SlotOk, Inv, Put, NeedleFor, LeavesOk, Evolves, Covers, HoldsLast;
    Here(c, s, i);
    var l := s.threads[i];
    var slot := At(s, l.pos);
    match l.at
    case Unvisit =>
      MarkSlot(c, l.pos, l.pos < s.len, slot, i, false);
      MarkHolds(slot, false);
      Puts(c, s, i, l.(at := TakeWord), l.pos, slot.(visited := false));
    case TakeWord => TakeKeeps(c, s, i);
    case WriteWord => WriteKeeps(c, s, i);
    case ClearBit =>
      MarkSlot(c, l.pos, l.pos < s.len, slot, i, false);
      Puts(c, s, i, l.(at := Publish), l.pos, slot.(visited := false));
    case Publish => PublishKeeps(c, s, i);
  }

  /** Taking a word of the evicted entry; after the last one all of it is there. */
  lemma TakeKeeps<W>(c: Config<W>, s: State<W>, i: nat)
    requires Inv(c, s) && i < |s.threads| && s.threads[i].Own? && s.threads[i].at.TakeWord?
    ensures Inv(c, StepOwn(c, s, i))
  {
    hide TagFor, IdOf, Matches, Live, RoundUp, SlotOk, Inv, Put, NeedleFor, LeavesOk, Evolves, Covers;
    Here(c, s, i);
    var l := s.threads[i];
    var slot, order := At(s, l.pos), c.orders.take;
    OrdersCover(c, CallGet([]));
    OrderWithin(c, order, l.m);
    OrderStarts(c);
    var w := WordOf(slot, order[l.m]);
    var got := WithWord(l.got, order[l.m], w);
    LastWidth(c, l.pos, l.pos < s.len, slot);
    ReadOne(order, l.m, l.got, w);
    if l.m + 1 < |order| {
      Moves(c, s, i, l.(at := TakeWord, m := l.m + 1, got := got));
    } else {
      AllRead(order, got);
      assert got == Somes(slot.pubs[|slot.pubs| - 1]);
      Moves(c, s, i, l.(at := WriteWord, m := 0, got := got));
    }
  }

  lemma LastWidth<W>(c: Config<W>, p: nat, below: bool, slot: Slot<W>)
    requires ValidConfig(c) && (below ==> p < c.cap) && SlotOk(c, p, below, slot)
    ensures |slot.words| == Width(c)
    ensures slot.pubs != [] ==> |slot.pubs[|slot.pubs| - 1]| == Width(c)
  {
  }

  /** Writing a word of the new entry; after the last one all of it is there. */
  lemma WriteKeeps<W>(c: Config<W>, s: State<W>, i: nat)
    requires Inv(c, s) && i < |s.threads| && s.threads[i].Own? && s.threads[i].at.WriteWord?
    ensures Inv(c, StepOwn(c, s, i))
  {
    hide TagFor, IdOf, Matches, Live, RoundUp, SlotOk, Inv, Put, NeedleFor, LeavesOk, Evolves, Covers, HoldsLast;
    Here(c, s, i);
    var l := s.threads[i];
    var slot, order := At(s, l.pos), c.orders.write;
    OrdersCover(c, CallGet([]));
    OrderWithin(c, order, l.m);
    LastWidth(c, l.pos, l.pos < s.len, slot);
    WriteSlot(c, l.pos, l.pos < s.len, slot, i, l.row, order[l.m]);
    var b := Written(slot, l.row, order[l.m]);
    if l.m + 1 < |order| {
      Puts(c, s, i, l.(at := WriteWord, m := l.m + 1), l.pos, b);
    } else {
      AllWritten(order, b.words, l.row);
      Puts(c, s, i, l.(at := if l.path.Updating? then Publish else ClearBit, m := l.m + 1), l.pos, b);
    }
  }

  lemma AllWritten<W>(order: seq<nat>, words: seq<Option<W>>, row: Row<W>)
    requires Covers(order, |words|) && |words| == |row| && WroteTo(order, |order|, words, row)
    ensures words == Somes(row)
  {
    forall j | 0 <= j < |words| ensures words[j] == Some(row[j]) {
      assert j in order;
    }
  }

  lemma PublishKeeps<W>(c: Config<W>, s: State<W>, i: nat)
    requires Inv(c, s) && i < |s.threads| && s.threads[i].Own? && s.threads[i].at.Publish?
    ensures Inv(c, StepOwn(c, s, i))
  {
    hide TagFor, IdOf, Matches, Live, RoundUp, SlotOk, Inv, Put, NeedleFor, LeavesOk, Evolves, Covers, HoldsLast;
    Here(c, s, i);
    var l := s.threads[i];
    var slot, tag := At(s, l.pos), TagFor(c, l.pos, KeyOf(c, l.row));
    NothingLeft(c, l.pos, l.pos < s.len, slot);
    match l.path
    case Updating =>
      PublishSlot(c, l.pos, l.pos < s.len, slot, i, l.row);
      Puts(c, s, i, UpdateVisit(l.pos), l.pos, Published(slot, tag, l.row));
    case Warming =>
      PublishSlot(c, l.pos, l.pos < s.len, slot, i, l.row);
      Puts(c, s, i, Finished(Inserted(None)), l.pos, Published(slot, tag, l.row));
    case Replacing =>
      var gone := Returned(slot, Whole(l.got));
      ReturnSlot(c, l.pos, l.pos < s.len, slot, i, l);
      PublishSlot(c, l.pos, l.pos < s.len, gone, i, l.row);
      var done := Published(gone, tag, l.row);
      assert Evolves(slot, done, i) by { SameButLeft(slot, gone, done, i); }
      Puts(c, s, i, Finished(Inserted(Whole(l.got))), l.pos, done);
  }

  lemma SameButLeft<W>(a: Slot<W>, b: Slot<W>, d: Slot<W>, i: nat)
    requires b == a.(left := b.left) && Evolves(b, d, i) && a.holder == Some(i)
    ensures Evolves(a, d, i)
  {
  }

  /** While a slot is held every entry published there has left. */
  lemma NothingLeft<W>(c: Config<W>, p: nat, below: bool, slot: Slot<W>)
    requires ValidConfig(c) && p < c.cap && SlotOk(c, p, below, slot) && slot.tag == EMPTY && slot.holder.Some?
    ensures below && |slot.left| == |slot.pubs|
  {
    hide TagFor, LeavesOk;
  }

  lemma StepKeeps<W>(c: Config<W>, s: State<W>, i: nat, call: Call<W>)
    requires Inv(c, s) && i < |s.threads| && Fits(c, call)
    ensures Inv(c, Step(c, s, i, call))
  {
    hide Inv, StepScan, StepClaim, StepOwn, ThreadOk, SlotOk;
    Here(c, s, i);
    match s.threads[i]
    case Idle => StartKeeps(c, s, i, At0(call, 0));
    case Finished(_) => StartKeeps(c, s, i, Idle);
    case Scan(_, _, _, _, _, _, _) => ScanKeeps(c, s, i);
    case Own(_, _, _, _, _, _, _) => OwnKeeps(c, s, i);
    case Sweeping(_, _, _, _) => SweepKeeps(c, s, i);
    case _ => ClaimKeeps(c, s, i);
  }

  lemma StartKeeps<W>(c: Config<W>, s: State<W>, i: nat, l: Local<W>)
    requires Inv(c, s) && i < |s.threads| && (s.threads[i].Idle? || s.threads[i].Finished?)
    requires l.Idle? || (l.Scan? && l.look.LoadTag? && Fits(c, l.call))
    ensures Inv(c, Go(s, i, l))
  {
    hide Inv;
    Here(c, s, i);
    Moves(c, s, i, l);
  }
}

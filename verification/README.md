# A verified model of senba's SIEVE cache

senba is a cache that evicts by SIEVE: entries queue from oldest to newest, a hit sets
an entry's visited flag, and a hand walks the queue, clearing flags, until it finds an
unvisited entry to evict. The repository implements this policy several times over:
the production shard (packed 16-bit tags, an arena addressed by a 6-bit id inside the
tag, a one-word visited bitmap, a vectorised scan), the research shards c10s/c11s (holes
and lazy compaction), c13s/c14s (slot-by-slot shift, VERSION bit, bounded retry) and the
lock-free c12s, and the reference: a doubly linked list in a node arena with a free list
and an index. This project models all of them, and the sharded cache and its iterators
on top, and proves what they promise.

How it is built up:

- `Sieve.dfy` is the policy on a plain queue: a sequence of (key, value, visited) and a
  hand. `SieveLaws.dfy` proves what the policy gives its caller, `Marks.dfy` what it does to
  flags, order and hand, `Sifting.dfy` and `OnePass.dfy` what a retain with any closure
  leaves, and `Remap.dfy` where arena ids go and when they stay in order.
- `Bits`, `Division`, `Tags`, `Bitmap`, `Simd`, `Words`, `Counting`, `Links`, `Positions` are the
  layers between the queue and the memory: bit tricks, the tag layout, the bitmap search,
  the two-bits-per-lane mask, and what it means for tags and arena to agree.
- `Shard.dfy`, `Holey.dfy`, `Versioned.dfy`, `Orig.dfy` are the implementations, as classes whose
  methods change the same fields the source changes. Each class keeps a ghost `queue`,
  and each method ensures that the new queue is what the policy makes of the old one. An
  arena slot is an optional entry: reading one needs `Some`, writing one raw needs `None`,
  so initialisation and exactly-once ownership are proof obligations.
- `Runs.dfy` concludes that all of them answer alike, call by call, in every run.
- `Claim.dfy` treats c12s as a step machine: one atomic access, or the access to one word
  of an entry, per step; any number of threads; any interleaving; sequentially consistent
  memory; the hand an unbounded natural. An entry is a row of words, a key's and then a
  value's, as many of each as one likes, and each of the four places that go over an entry
  does so in an order of its own, whatever it is. `ClaimRuns.dfy` has what holds in every
  reachable state, `ClaimCalls.dfy` what becomes of each call, `ClaimFinds.dfy` and
  `ClaimProgress.dfy` what calls are sure of while others work,
  `ClaimSolo.dfy` the whole runs of one thread, `ClaimUse.dfy` the runs in which only given
  calls are made, and `ClaimRaces.dfy` what c12s does not promise and exactly when;
  `ClaimAlone.dfy` and `ClaimStaging.dfy` build the runs for these.
- `Sharding.dfy`, `Sharded.dfy`, `Cache.dfy`, `Iteration.dfy` are the number of shards, the
  split, routing, the cache over its shards, and `Iter` and `Drain`. `RowMarks.dfy`,
  `RowPass.dfy` and `RowStats.dfy` say what each call does to the row of shards: flags,
  order and hand, the one pass of a retain, and the counters of `Counters.dfy`.

## Findings

Places where the code and what is written about it differ. The model follows the code.

- `insert` on an existing key returns nothing (`src/shard/state.rs:39-45`), although
  `src/lib.rs:239-242` says the old pair is returned. `SieveLaws.InsertPeek` proves that a
  pair comes back exactly for a new key in a full queue, and then it is the evicted one.
- `Drain` hands out entries by arena id (`src/iter.rs:219-233`), although
  `src/lib.rs:406-407` says iterator order. `Iteration.DrainsOutOfOrder` does both on a
  cache of capacity 2 after three inserts and gets two orders.
  `Iteration.Drain.constructor` proves the orders equal exactly when in every shard the
  ids run from the oldest entry to the newest. An insert ends that exactly when it evicts an
  entry that is not the newest (`Remap.OrderAfterInsert`), a removal exactly when at least
  two newer entries are left (`Remap.OrderAfterRemove`), a retain exactly when a survivor
  with an id below the new length has changed its position (`Remap.OrderAfterRetain`).
- `src/lib.rs:325-326` says an aborting `retain` closure leaves the cache empty. It
  empties only the shard it aborts in (`src/lib.rs:332-339`); `Sharded.AbortsEmptyIff`
  proves that every aborting closure leaves the cache empty exactly when at most one
  shard holds entries, and `Cache.AbortLeavesOne` builds a cache that is not left empty.
- A c12s read can validate and still be torn (`research/src/experimental/sieve_c12s.rs:260-281`).
  `ClaimRaces.TornIff` proves, for every capacity, every width of keys and values and every
  entry, that some run comes to a lookup about to return that entry, never published in the
  slot, exactly when its key is looked up, some other inserted entry has its key's needle,
  and each of its words is that word of some other inserted entry. So one key with two
  values that differ in two words is enough (`ClaimRaces.WideValueTears`); with keys and
  values of one word it takes a second key with another value (`ClaimRaces.OneWordEach`).
  Whatever happens, every word of a validated read is that word of some entry published
  since the tag was loaded (`ClaimRuns.ValidatedWords`), so the read is whole whenever those
  entries differ in one word at most (`ClaimRuns.OneWordIsWhole`) or nothing was published
  (`ClaimRuns.WindowedRead`).
- A c12s update in place can overwrite another key's entry
  (`research/src/experimental/sieve_c12s.rs:303-327`), whose pair is then returned by no
  insert: `ClaimRaces.UpdateOverwritesOtherKey`, for every capacity.
  `ClaimRaces.OverwriteIff` proves that some run comes to it exactly when two keys of one
  needle are inserted.

## Model

Results over whole runs come first, then the operations, then the layers they rest on.

| member | source | states |
|---|---|---|
| Runs.AllAnswerAlike | src/lib.rs:18-21 | for every capacity from 1 to 64 and every run of lookups and inserts the reference and the five array implementations answer alike, call by call, evicted pairs included, whatever their layouts, hash functions and scans |
| Runs.MatchesReference | src/lib.rs:18-21 | the production shard and the reference answer alike in every run of lookups, inserts and removals |
| Runs.RunOrig | research/src/experimental/sieve_orig.rs:84-242 | every run of lookups, inserts and removals on the reference, for every capacity it can number, answers as the policy does |
| Runs.RunDense | src/shard/state.rs:30-169 | every run of lookups, inserts and removals on the production shard answers as the policy does |
| Runs.RunHoley | research/src/experimental/sieve_c10s.rs:313-356 | so does every run on c10s and on c11s, with either reader |
| Runs.RunVersioned | research/src/experimental/sieve_c14s.rs:457-702 | so does every single-threaded run on c13s and on c14s, with the scalar scans and with the vectorised ones, c14s' path A included |
| ClaimRuns.EverySlot | research/src/experimental/sieve_c12s.rs:12-24 | in every reachable state a position below `len` is live, names itself, matches its key and is unowned, or EMPTY with exactly one owner; positions from `len` on are EMPTY and unowned |
| ClaimRuns.LenIsLivePlusOwned | research/src/experimental/sieve_c12s.rs:107-108 | `len` is the number of live slots plus the number of owning threads, and at most the capacity |
| ClaimRuns.BooksBalance | research/src/experimental/sieve_c12s.rs:407-442 | publications = live + evicted + overwritten, in every reachable state |
| ClaimCalls.InsertsBalance | research/src/experimental/sieve_c12s.rs:299-375 | in every run: the entries published are as many as the inserts that have ended and the updates with only their visited bit left to set |
| ClaimCalls.InsertLands | research/src/experimental/sieve_c12s.rs:299-404 | whatever the others do, an insert that has its answer has published its entry since it began; it answers `Some(x)` exactly when `x` is the entry an eviction took out of that slot just before |
| ClaimCalls.InsertPublishesOnce | research/src/experimental/sieve_c12s.rs:299-404 | it has published exactly once in its own turns, lost swaps or not |
| ClaimCalls.LookupAnswers | research/src/experimental/sieve_c12s.rs:215-281 | whatever the others do, a lookup that answers `Some` has found one slot that had an entry of the key's needle when it began or was given one since, and every word of key and value is that word of an entry the slot had then or since |
| ClaimRuns.EvictionReturnsLast | research/src/experimental/sieve_c12s.rs:434-440 | an insert that evicts returns exactly the entry published last in the slot it took |
| ClaimRuns.OnlyOwnerWrites | research/src/experimental/sieve_c12s.rs:111-112 | a step that changes a word of an entry is its owner's, while the tag is EMPTY |
| ClaimRuns.EntryAccess | research/src/experimental/sieve_c12s.rs:434-439 | every entry a thread is about to read or write is below `len`, at the position its tag names, and read only when all its words were written |
| ClaimRuns.WindowedRead | research/src/experimental/sieve_c12s.rs:260-281 | from its first look at a matching tag to its second, whatever other threads do meanwhile: if the second look validates and nothing was published in the slot in between, the reader has every word the slot held |
| ClaimRuns.ValidatedRead | research/src/experimental/sieve_c12s.rs:260-281 | a read that validates, of a slot with no publication since the tag was loaded, has every word of the entry published there, and the caller goes on with that entry exactly when it has the key sought |
| ClaimRuns.ValidatedWords | research/src/experimental/sieve_c12s.rs:260-281 | whatever is published meanwhile, each word of a validated read is that word of some entry published in the slot since the tag was loaded, and the first of these has the needle sought |
| ClaimRuns.OneWordIsWhole | research/src/experimental/sieve_c12s.rs:260-281 | if those entries differ in one word at most, the read is one of them |
| ClaimRaces.TornIff | research/src/experimental/sieve_c12s.rs:260-281 | for every capacity, width and entry: over the runs of a set of calls a lookup can be about to return the entry, never published in the slot, exactly when its key is looked up, another inserted entry has its needle, and each of its words is that word of another inserted entry |
| ClaimRaces.TornReadValidates | research/src/experimental/sieve_c12s.rs:260-281 | for every such entry, in any order of reading the words: a reachable state where a validated lookup is about to return it, and the step that does |
| ClaimRaces.OneWordEach | research/src/experimental/sieve_c12s.rs:260-281 | with keys and values of one word each, some lookup can be torn exactly when a key is looked up and inserted and another key is inserted with another value |
| ClaimRaces.WideValueTears | research/src/experimental/sieve_c12s.rs:260-323 | one key and two values that differ in two words: a lookup can return a value that is neither |
| ClaimRuns.UpdateMeetsNeedle | research/src/experimental/sieve_c12s.rs:303-327 | in every reachable state the compare-and-swap of an update can succeed only on an entry whose key has the needle of its own key |
| ClaimRaces.OverwriteIff | research/src/experimental/sieve_c12s.rs:303-327 | for every capacity: over the runs of a set of calls an update can overwrite another key's entry exactly when two keys of one needle are inserted |
| ClaimRaces.UpdateOverwritesOtherKey | research/src/experimental/sieve_c12s.rs:303-327 | for every capacity and any two keys of one needle: a reachable state where path A's compare-and-swap claims another key's entry, and what its next step does |
| ClaimRuns.EvictAlone | research/src/experimental/sieve_c12s.rs:407-442 | alone on a full shard `evict_one` claims the sweep's victim and leaves the sweep's flags |
| ClaimRuns.EvictAloneChooses | research/src/experimental/sieve_c12s.rs:407-442 | within capacity + 1 turns of the hand; the first unvisited slot cyclically, or the one under the hand exactly when all were visited |
| ClaimRuns.RunGrows | research/src/experimental/sieve_c12s.rs:309-327 | publications and departures are only ever added, so an entry leaves its slot at most once and in one way |
| ClaimUse.ReachableInUse | research/src/experimental/sieve_c12s.rs:298-442 | every entry a slot has held, and every entry or key a thread works on, was passed to one of the calls made |
| ClaimFinds.LookupFinds | research/src/experimental/sieve_c12s.rs:215-281 | if a slot shows the key from a lookup's first step to its last and nobody claims it in between, the lookup answers `Some`, whatever the others do |
| ClaimFinds.LookupEnds | research/src/experimental/sieve_c12s.rs:215-281 | a lookup has its answer after a number of turns of its own that its position fixes, however the others are scheduled |
| ClaimProgress.EvictsWhenFull | research/src/experimental/sieve_c12s.rs:333-381 | in every reachable state a thread that evicts has seen the shard full, and it still is |
| ClaimProgress.InsertUpdates | research/src/experimental/sieve_c12s.rs:299-329 | while some slot shows the key from an insert's first step on and nobody claims it, the insert neither takes a new slot nor evicts, whatever swaps it loses elsewhere |
| ClaimProgress.DisplacesToEnd | research/src/experimental/sieve_c12s.rs:331-404 | an insert that has found no copy does not look again, and one that has seen the shard full ends with the entry it evicted, whatever swaps it loses |
| ClaimProgress.LostToAClaim | research/src/experimental/sieve_c12s.rs:309-314 | a tag that was live is another one later only if the slot was claimed in between: a swap is lost to another thread's success only |
| ClaimProgress.HandMovesOn | research/src/experimental/sieve_c12s.rs:407-430 | in `evict_one` the hand advances at least once in four of a thread's turns, whatever it finds and loses |
| ClaimProgress.HitMarks | research/src/experimental/sieve_c12s.rs:260-281 | as a lookup answers, or an update ends, its slot is visited |
| ClaimProgress.PublishesUnvisited | research/src/experimental/sieve_c12s.rs:339-354 | from its last word on, undisturbed, a new entry is published unvisited whatever the bit was |
| ClaimSolo.RunSolo | research/src/experimental/sieve_c12s.rs:215-442 | every run of one thread answers, call by call, as a ring of entries does: inserts replace the sweep's victim in its place |
| ClaimSolo.SameAnswers | research/src/experimental/sieve_c12s.rs:215-442 | one thread alone has one succession of answers and one final state |
| ClaimSolo.RingPeek | research/src/experimental/sieve_c12s.rs:298-442 | in the ring an insert changes no lookup but its own key's and the evicted one's; the evicted pair was live with that value; an eviction happens exactly for a new key in a full ring |
| ClaimSolo.RingStepDoes | research/src/experimental/sieve_c12s.rs:260-442 | in the ring a lookup marks what it finds and moves nothing; an update marks; a new entry joins unvisited or takes the place of the first unvisited entry from the hand on, and the hand goes on from there |
| Claim.StepKeeps | research/src/experimental/sieve_c12s.rs:298-442 | the invariant is inductive: any step of any thread keeps it |
| Cache.RunCache | src/lib.rs:190-428 | any run of calls on a new cache, writes through mutable lookups and retains with closures that change values and abort included, leaves the row, gives the answers and evicted pairs, and counts what the row of plain queues says |
| RowMarks.StepDoes | src/lib.rs:203-428 | every call, in values, flags, order and hand: a promoting hit marks its entry and moves nothing, a plain one changes nothing, a write marks or joins or evicts the first unvisited entry from the hand on, a removal closes the gap, a retain leaves each shard its stretch of the pass |
| RowMarks.HitSurvives | src/lib.rs:216-260 | after a hit, and any calls that neither take the key out nor evict from its shard, the next eviction there is of another key as long as some entry there is unvisited |
| RowMarks.MarkStays | src/lib.rs:322-326 | no call but an eviction or the key's own removal takes its visited flag away |
| RowPass.RowIsOnePass | src/lib.rs:332-339 | a retain is one pass over the entries of all shards, call `n` of the closure on entry `n`: each shard passed is left its kept entries in order with their flags and its hand on the next survivor; the one it aborts in is emptied, later ones are untouched; dropped are the discarded entries in order and then that shard |
| RowPass.RowKeeps | src/lib.rs:332-339 | without an abort the entries left are those one pass over all of them keeps, in order |
| RowPass.RowConserves | src/lib.rs:332-339 | over all shards, aborting or not: each entry, with the value its own call left in it, is kept or dropped, exactly once |
| RowStats.ChargesCount | src/stats.rs:11-23 | over any run hits and misses are the promoting lookups, misses are those that answered nothing or inserted, insertions the inserts and those, evictions the calls that evicted |
| Cache.AbortLeavesOne | src/lib.rs:322-339 | two shards with an entry each and a closure that aborts at once: the second entry is still there |
| Sharded.PeekSeesLastWritten | src/lib.rs:262-272 | after any run from empty a lookup sees the value last written, by an insert, through a mutable lookup or by a retain closure, unless evicted, removed or dropped since |
| Sharded.AnswersAreLastWritten | src/lib.rs:216-260 | in any run every lookup, mutable or not, every removal and every eviction answers the value last written |
| Sharded.AbortsEmptyIff | src/lib.rs:322-339 | every aborting closure leaves the cache empty exactly when at most one shard holds entries |
| Sharded.StepLedger | src/lib.rs:216-339 | after any call every key's lookup is what the call leaves written for it; lookups, removals and evictions answer what was written before |
| Sharded.SiftRow | src/lib.rs:322-339 | after a retain with any closure, aborting or not, a key looks up to nothing if it was dropped, to the value the closure left if it was kept, and to what it did before if the closure never met it |
| Sifting.SiftPeek | src/shard/state.rs:177-267 | the same for one shard |
| Iteration.TakeSome | src/iter.rs:137-145 | however many entries are taken first, taken and dropped together are the old entries, once each |
| Iteration.Drain.constructor | src/iter.rs:165-198 | the cache is valid and empty at once; what is pending is its entries as a multiset, and in iterator order exactly when every shard's ids run from oldest to newest |
| Iteration.DrainsOutOfOrder | src/iter.rs:219-233 | capacity 2 and three inserts: the iterator yields the second and the third entry, the drain the third and the second |
| Iteration.ArenaOrder | src/iter.rs:219-233 | in a valid shard the entries by id are the entries by age exactly when the ids run from oldest to newest |
| Remap.OrderAfterInsert | src/shard/state.rs:51-90 | ids in order stay so through an insert unless it evicts an entry that is not the newest |
| Remap.OrderAfterRemove | src/shard/state.rs:113-166 | ids in order stay so through a removal exactly when the newest entry or the one before it is removed |
| Remap.OrderAfterRetain | src/shard/state.rs:269-320 | after a retain the ids run in order exactly when every survivor's old id is its new position or at least the new length |
| Remap.KeptAscend | src/shard/state.rs:221-255 | of ids in order those the closure keeps are ascending |
| SieveLaws.RetainIsRemovalInAnyOrder | src/lib.rs:322-331 | retaining by a predicate gives the queue that removing the failing keys one at a time gives, in any order of removal: order, values, flags and hand |
| SieveLaws.RetainConserves | src/shard/state.rs:224-255 | for every closure, aborting or not: each entry, with the value the closure left in it, is kept or dropped, exactly once |
| OnePass.RetainIsOnePass | src/shard/state.rs:221-267 | for every closure with state, deleting one entry at a time is the single pass: entries, values, flags, order, hand and what is dropped, up to an abort |
| Sharding.AutoShardWorks | src/concurrent/cache.rs:130-146 | for every capacity no assertion fails, the split adds up, each shard gets at most 8 and, above 8 entries, at least 4 |
| Sharding.FewShardsWorks | src/lib.rs:121-148 | the same for the sequential cache with 64 and 32, and one shard exactly up to 64 entries |
| Sharding.FewShardsIsLeast | src/lib.rs:93-98 | no smaller power of two of shards would fit |
| Shard.Shard.constructor | src/shard/mod.rs:308-337 | a new shard is valid, empty, with every slot uninitialised and all counters zero |
| Shard.Shard.FindScalar | src/shard/scan.rs:86-103 | finds the key's unique position and tag, or nothing exactly when the key is absent |
| Shard.Shard.FindAvx2 | src/shard/scan.rs:117-191 | returns the same position and tag as the scalar scan on every valid shard |
| Shard.Shard.Find | src/shard/scan.rs:61-83 | either dispatch gives the queue's position of the key |
| Shard.Shard.FindAndTouch | src/shard/lookup.rs:45-72 | a promoting find sets the one flag and bumps one counter; a plain one changes nothing |
| Shard.Shard.Contains | src/shard/lookup.rs:31-38 | true exactly when the key is live; changes nothing |
| Shard.Shard.Get | src/shard/lookup.rs:74-82 | answers and leaves the queue as the policy does; one of hits and misses grows by one |
| Shard.Shard.Peek | src/shard/lookup.rs:97-107 | the value, with nothing changed |
| Shard.Shard.Change | src/shard/lookup.rs:84-123 | `get_mut` and `peek_mut` with the write that follows: the value, and with `get_mut` the flag, changes in place; order, hand and ids do not |
| Shard.Shard.GetOrInsertWith | src/shard/lookup.rs:163-191 | returns what a following peek of the key returns; the closure counts only on a miss; all four counters |
| Shard.Shard.FindEvictPos | src/shard/scan.rs:203-241 | the policy's victim, and the policy's flags after the sweep |
| Shard.Shard.Insert | src/shard/state.rs:30-90 | answers and leaves the queue as the policy does, keeping I4' to I8, unique keys, hash bits and no stray visited bit; the row of ids gains the next id, or the victim's moves to its end |
| Shard.Shard.EvictOne | src/shard/state.rs:57-79 | the victim's entry is read out once, its slot is free, and the queue is the swept one without it |
| Shard.Shard.Install | src/shard/state.rs:82-87 | the raw write goes to a free slot and the new entry is newest and unvisited |
| Shard.Shard.Remove | src/shard/state.rs:104-169 | deletes exactly the key, keeping order, values and flags of the rest, the hand as promised, and I8; the freed id goes to the owner of the largest |
| Shard.Shard.UnlinkAt | src/shard/state.rs:113-138 | after the shift everything but I8 holds, the ids are the old ones without the freed one |
| Shard.Shard.RestoreIds | src/shard/state.rs:143-166 | the owner of the largest id is found and given the freed one, no other id changes, and the live ids are the first `len` again |
| Shard.Shard.Retain | src/shard/state.rs:177-324 | the queue and the dropped entries are what keeping, dropping or aborting one entry at a time gives, and the ids are the survivors' remapped, the lowest too large to the lowest free; after an abort the shard is a valid empty one |
| Shard.Shard.KeepOrDrop | src/shard/state.rs:221-267 | the first pass, for any closure with state: queue, dropped entries and the survivors' ids |
| Shard.Shard.GuardDrop | src/shard/state.rs:192-207 | at any abort the live tags name exactly the entries still initialised: each is dropped once |
| Shard.Shard.RemapIds | src/shard/state.rs:269-320 | the pairing loop ends with the live ids exactly the first `len`: low ids stay, high ones go to free ones in order, nothing else changed |
| Shard.Shard.PairOnce | src/shard/state.rs:291-319 | one pairing gives the owner of the lowest high id the lowest free id, no other id changes, and both masks shorten |
| Shard.Shard.Clear | src/shard/state.rs:328-343 | every entry is dropped once and the shard is valid and empty |
| Shard.Shard.Clone | src/shard/mod.rs:346-385 | a shard of its own with the same queue, capacity and counters, each slot written raw once |
| Shard.Shard.Lend | src/iter.rs:178-191 | the shard is valid and empty at once, and its arena goes to the drain |
| Holey.Shard.GetByHash | research/src/experimental/sieve_c10s.rs:221-230 | either reader answers and leaves the queue as the policy does, holes or not |
| Holey.Shard.FindGetScalar | research/src/experimental/sieve_c10s.rs:232-240 | the scalar reader, up to the tail, gives the policy's lookup |
| Holey.Shard.FindGetAvx2 | research/src/experimental/sieve_c10s.rs:242-280 | so does the vector reader over the whole tag array, which tries only lanes below the tail |
| Holey.Shard.TryCandidate | research/src/experimental/sieve_c11s.rs:290-313 | one candidate, with the unconditional set of c10s or the conditional one of c11s: the same effect |
| Holey.Shard.Insert | research/src/experimental/sieve_c10s.rs:318-356 | answers and leaves the queue as the policy does; there is always room at the tail |
| Holey.Shard.WriterFind | research/src/experimental/sieve_c10s.rs:359-378 | finds the key's position among the holes |
| Holey.Shard.WriterUpdateInPlace | research/src/experimental/sieve_c10s.rs:383-402 | through the EMPTY window the same tag comes back and the entry is updated and marked |
| Holey.Shard.WriterScanEvict | research/src/experimental/sieve_c10s.rs:422-436 | clears flags up to the first unvisited live position, skipping holes |
| Holey.Shard.ScanForVictim | research/src/experimental/sieve_c10s.rs:405-419 | the chain of scans ends on the position of the policy's victim |
| Holey.Shard.WriterDoEvict | research/src/experimental/sieve_c10s.rs:448-471 | leaves a hole, frees the id, and puts the hand on the victim's successor |
| Holey.Shard.WriterCompact | research/src/experimental/sieve_c10s.rs:474-518 | keeps live order, values, flags and the entry under the hand, leaves room to append; tags moved never exceed installs, and at least capacity + 1 installs lie between two compactions |
| Versioned.Shard.FindGetScalar | research/src/experimental/sieve_c14s.rs:321-338 | on any row of EMPTY or live tags: the first hit, or nothing with `racing` exactly when a hole lies below `len` |
| Versioned.Shard.FindGetAvx2 | research/src/experimental/sieve_c14s.rs:342-395 | the same (value, racing) pair as the scalar scan on any such row |
| Versioned.Shard.GetByHash | research/src/experimental/sieve_c14s.rs:457-479 | the scan's answer, after as many scans as the retry loop makes when every scan sees the same: four when a miss saw a hole, else one |
| Versioned.Scans | research/src/experimental/sieve_c14s.rs:457-479 | at most four scans, only misses with a hole before the last, and the last is no such miss unless it is the fourth |
| Versioned.BoundedRetry | research/src/experimental/sieve_c14s.rs:457-479 | the retry loop against any succession of scans: it makes as many as `Versioned.Scans` says and returns the last one's value |
| Versioned.Shard.Get | research/src/experimental/sieve_c13s.rs:378-380 | answers and leaves the queue as the policy does |
| Versioned.Shard.Insert | research/src/experimental/sieve_c13s.rs:384-396 | answers and leaves the queue as the policy does |
| Versioned.Shard.TryPathA | research/src/experimental/sieve_c13s.rs:406-496 | updates exactly when the key is live, in place, and marks it; its tag alone changes, by its VERSION bit; otherwise nothing changes |
| Versioned.Shard.UpdateInPlace | research/src/experimental/sieve_c13s.rs:595-623 | the value is replaced and marked, and of all tags one changes, by its VERSION bit |
| Versioned.Shard.FindForPathA | research/src/experimental/sieve_c14s.rs:604-702 | path A's scan of c14s, scalar or in chunks of lanes, finds the key's unique position and tag, or nothing exactly when it is absent |
| Versioned.Shard.PathBC | research/src/experimental/sieve_c13s.rs:532-550 | re-finds, installs or evicts as the policy does |
| Versioned.Shard.WarmupInstall | research/src/experimental/sieve_c13s.rs:627-643 | the new entry is newest and unvisited, with the next id |
| Versioned.Shard.ShiftSlots | research/src/experimental/sieve_c13s.rs:679-698 | the slot-by-slot loop deletes one tag and one flag and keeps the others in order |
| Versioned.Shard.EvictAndInstall | research/src/experimental/sieve_c13s.rs:647-723 | the policy's victim is returned and its id reused at the newest end |
| Versioned.Shard.EvictPosition | research/src/experimental/sieve_c13s.rs:661-664 | two linear scans, else the hand, find the policy's victim |
| Versioned.Shard.ScanEvict | research/src/experimental/sieve_c13s.rs:727-751 | clears the flags it passes and stops at the first unset one |
| Orig.SieveCache.Get | research/src/experimental/sieve_orig.rs:84-89 | the answer and the queue follow the policy; the list is not moved |
| Orig.SieveCache.Insert | research/src/experimental/sieve_orig.rs:93-119 | the answer and the queue follow the policy, evicted pair included; list, arena, free list and index stay consistent |
| Orig.SieveCache.Remove | research/src/experimental/sieve_orig.rs:123-132 | the key's node leaves list, arena and index; a hand on it moves to the next newer one |
| Orig.SieveCache.FindVictim | research/src/experimental/sieve_orig.rs:210-232 | the walk along `prev` from the hand, or the tail, ends on the sweep's victim with the sweep's flags |
| Orig.SieveCache.EvictOne | research/src/experimental/sieve_orig.rs:210-241 | nothing from an empty list; else the sweep's victim, taken out, the hand on the next newer entry |
| Orig.SieveCache.Unlink | research/src/experimental/sieve_orig.rs:189-206 | both neighbours, or head and tail, bypass the node; the order of the rest is kept |
| Orig.SieveCache.LinkAtHead | research/src/experimental/sieve_orig.rs:172-186 | the node becomes the newest of the list |
| Orig.SieveCache.AllocNode | research/src/experimental/sieve_orig.rs:150-159 | a slot not in use, from the free list or new; no live node is touched |
| Cache.BuildShards | src/lib.rs:141-148 | fresh, empty, disjoint shards with the split's capacities |
| Cache.Cache.constructor | src/lib.rs:131-165 | a valid empty cache whose shard capacities total the capacity |
| Cache.Cache.ShardOf | src/lib.rs:431-433 | the routed shard is in range and the one the key's entries live in |
| Cache.Cache.Insert | src/lib.rs:244-248 | the routed queue changes as the policy says, its ids as `Remap.NextIds` says and the counters by one insertion and perhaps an eviction; every other shard is untouched |
| Cache.Cache.Get | src/lib.rs:216-224 | the routed queue changes as a promoting lookup says and a hit or a miss is counted; every other shard is untouched |
| Cache.Cache.Peek | src/lib.rs:265-272 | the routed queue's value; nothing changes |
| Cache.Cache.Change | src/lib.rs:229-286 | the routed queue changes as a mutable lookup and the write through it say, and a promoting one is counted; every other shard is untouched |
| Cache.Cache.ContainsKey | src/lib.rs:203-210 | whether a lookup would find a value |
| Cache.Cache.Remove | src/lib.rs:252-260 | the routed queue loses the key, its freed id goes to the owner of the largest; every other shard and all counters are untouched |
| Cache.Cache.GetOrInsertWith | src/lib.rs:421-428 | returns exactly what a following peek of the key returns; a hit, or a miss with its insertion, is counted; every other shard is untouched |
| Cache.Cache.Retain | src/lib.rs:332-339 | shard after shard with one closure; an abort empties its shard and skips the rest; in each shard passed the ids are the survivors' remapped |
| Cache.Cache.Clear | src/lib.rs:316-320 | every entry of every shard is dropped once |
| Cache.Cache.Capacity | src/lib.rs:169-171 | the total of the shard capacities |
| Cache.Cache.Len | src/lib.rs:174-176 | the number of live entries over all shards |
| Cache.Cache.ReadStats | src/lib.rs:190-199 | the sums of the shards' counters |
| Iteration.Iter.Next | src/iter.rs:19-36 | yields every entry once, shard by shard and oldest first, then nothing for ever |
| Iteration.WalkAll | src/iter.rs:19-36 | an iterator run to its end yields the entries shard by shard and oldest first |
| Iteration.ArenaIsQueue | src/iter.rs:148-151 | by I8 the slots below the old length hold exactly the live entries |
| Iteration.Drain.Next | src/iter.rs:208-235 | yields what is pending, once each; no slot is read twice or uninitialised |
| Iteration.Drain.SizeHint | src/iter.rs:237-246 | exactly the number still pending, after every step |
| Iteration.Drain.Drop | src/iter.rs:273-275 | everything pending is dropped and no slot stays initialised |
| Sharded.OtherShardsUntouched | src/lib.rs:216-286 | in the row of queues no call changes the queue of a shard its key is not routed to; the fields of the other shards are in the contracts of the cache's methods |
| Sharded.FilterPeek | src/lib.rs:322-326 | retaining by a predicate keeps exactly the pairs it accepts |
| Sharded.RetainRowFilters | src/lib.rs:332-339 | for a predicate the shard-by-shard pass filters every shard |
| Sharding.NextPow2IsLeast | src/lib.rs:124 | the least power of two at or above its argument |
| Sharding.AutoShardIsTarget | src/concurrent/cache.rs:42-51 | the clamps never change the choice |
| Sharding.SharesAddUp | src/lib.rs:141-148 | the shard capacities sum to the capacity |
| Sharding.SharesFair | src/lib.rs:141-148 | no shard gets more than an earlier one, and no two differ by more than one |
| Sharding.RouteIsModulo | src/lib.rs:431-433 | the AND with the mask is the hash modulo the number of shards, so always in range |
| Sharding.MaskIsOneLess | src/lib.rs:161 | the mask is the number of shards less one |
| Sieve.SweepIsTwoPass | research/src/experimental/sieve_c13s.rs:661-664 | the step-by-step cyclic walk of the hand picks the victim and leaves the flags of the two-pass form: to the end, then up to the hand, else the hand |
| Sieve.VisitedVictimMeansAllVisited | src/shard/scan.rs:193-198 | a visited entry is chosen exactly when all were visited; no flag appears |
| SieveLaws.InsertKeepsValid | src/shard/state.rs:51-90 | an insert keeps keys unique, the hand in range and the length within capacity, and says when it grows |
| SieveLaws.InsertPeek | src/lib.rs:239-248 | after an insert every key's lookup is as before, but the inserted key's and the evicted one's; the evicted pair was live with that value; an eviction happens exactly for a new key in a full queue |
| SieveLaws.GetPeek | src/shard/lookup.rs:74-82 | a hit changes no lookup and returns what a lookup of that key sees |
| SieveLaws.ChangePeek | src/shard/lookup.rs:84-123 | a write through a mutable lookup changes that key's value and no other lookup, and adds or drops no entry |
| SieveLaws.RemovePeek | src/shard/state.rs:104-169 | a removal makes its key absent, changes no other lookup, and returns the removed value |
| Marks.GetMarks | src/shard/lookup.rs:45-82 | a hit marks its entry; every other entry, the order and the hand stay |
| Marks.ChangeMarks | src/shard/lookup.rs:84-123 | a mutable lookup that promotes marks its entry, one that does not leaves the flag; the rest stays |
| Marks.UpdateMarks | src/shard/state.rs:39-45 | an insert over a live key writes and marks it in place |
| Marks.InsertEvicts | src/shard/state.rs:56-90 | a new key in a full queue takes out the first unvisited entry from the hand on, or the hand's own if all are visited; those passed lose their flags, the others keep them; the hand goes to the next entry |
| Marks.RemoveCloses | src/shard/state.rs:104-138 | a removal closes the gap; the hand stays on its entry or goes to the cyclic successor |
| SieveLaws.HandAfterDelete | src/shard/state.rs:128-138 | after a deletion the hand is on the entry it was on, or on the cyclic successor of the deleted one |
| SieveLaws.RemoveAllIsSurvive | src/shard/state.rs:104-169 | removing a list of keys leaves the survivors in order with their flags |
| SieveLaws.HandOnNextSurvivor | src/shard/state.rs:262-267 | the hand lands on the first survivor at or after its old place |
| SieveLaws.HandWraps | src/shard/state.rs:262-267 | with no survivor at or after it the hand starts over at the oldest |
| Bitmap.SearchVictim | src/shard/scan.rs:203-241 | the mask-and-count search finds the sweep's victim and leaves exactly the sweep's flags, for every length up to 64, hand and pattern |
| Bitmap.ShiftFlags | src/shard/mod.rs:109-115 | the two-mask shift deletes one flag and keeps the others in order, no stray bit appearing |
| Bitmap.PairingWords | src/shard/state.rs:274-285 | the two masks hold exactly the live ids above `write` and the free ids below it |
| Simd.NextLane | src/shard/scan.rs:169-170 | the lowest set bit of the two-bits-per-lane mask, halved, is the next matching lane |
| Simd.SecondClear | src/shard/scan.rs:184-185 | clearing the lowest bit twice removes that lane and no other |
| Simd.KeepLanes | research/src/experimental/sieve_c14s.rs:366-372 | the pad mask keeps exactly the lanes below `len` |
| Links.ArenaIsPrefix | src/lib.rs:25-31 | I5 to I8 together: the initialised slots are exactly the first `len` ids, by counting |
| Links.Append | src/shard/state.rs:82-87 | a new tag with a free id and its entry keep I5 to I7 |
| Links.Unlink | src/shard/state.rs:116-126 | taking out a tag and its entry keeps I5 to I7 for the rest, in order |
| Links.Move | src/shard/state.rs:151-157 | moving an entry to a free slot and rewriting its tag's id keeps I5 to I7 |
| Tags.NewTagLaws | src/shard/state.rs:82 | a new tag carries its id, matches its key's needle and is not EMPTY |
| Tags.WithIdLaws | src/shard/state.rs:155-157 | rewriting the id field changes the id and nothing a scan compares |
| Tags.FlipLaws | research/src/experimental/sieve_c13s.rs:471-477 | flipping VERSION changes neither the id nor anything a scan compares |
| Tags.NeedleInjective | src/shard/scan.rs:249-268 | two hashes give one needle exactly when they agree in their top nine bits, or eight with a VERSION bit |
| Tags.IdIsByteOffset | src/shard/mod.rs:272-291 | the masked tag is id times the slot size, for slots of 16, 32 and 64 bytes |
| Tags.NeedleShape | research/src/experimental/sieve_c12s.rs:186-200 | a needle is the LIVE bit and hash bits, clear in the id field |
| Claim.TagFor | research/src/experimental/sieve_c12s.rs:322 | the published tag names its own position, matches its key and is live |
| Claim.Stable | research/src/experimental/sieve_c12s.rs:14-16 | one step of another thread does not disturb what a thread knows of the slot it is at |
| Claim.Preserve | research/src/experimental/sieve_c12s.rs:21-24 | a step that keeps the invariant at its own slot keeps it everywhere |
| Claim.ScanKeeps | research/src/experimental/sieve_c12s.rs:215-281 | every step of the scans, the readers' and the writers', keeps the invariant |
| Claim.ClaimKeeps | research/src/experimental/sieve_c12s.rs:299-358 | so does every step towards a claim on paths A and B, lost compare-and-swaps included |
| Claim.SweepKeeps | research/src/experimental/sieve_c12s.rs:407-430 | so does every step of the hand |
| Claim.OwnKeeps | research/src/experimental/sieve_c12s.rs:361-375 | so does every step of an owner, from claim to publication |

## Left out

- Concurrent runs of c13s and c14s: their own header limits soundness to `V: Copy`; they are modelled for one thread, where the spin loops of `read_live_tag_with_spin` and `scan_evict` are never entered.
- The production concurrent shard (seqlock and epoch reclamation) is not part of this model; from the concurrent cache only the shard count and the split are.
- Weak memory orderings, fences, cache lines, alignment and raw pointers: atomics are sequentially consistent and an arena slot is an optional entry.
- The hash function: an arbitrary fixed function from keys to 64-bit words.
- The vectorised readers of c12s and c13s: the loop they share with the production shard, c10s and c14s is proved there. In c12s a reader visits every position; the vectorised one skips positions whose tag did not match in an earlier load.
- The 32-bit movemask is held in a 64-bit word; at most its low 32 bits are ever set.
- Counters are unbounded naturals; the source's wrap after 2^64 operations. The hand of c12s likewise.
- `get_key_value`, `peek_key_value`, `iter_mut`, `keys`, `values`: the same find and walk with another projection.
- Entries of c12s are rows of words that are read and written one at a time and compared word by word; padding between them and a key type whose `Eq` is coarser than its words are not in the model.
- Orig.SieveCache.Insert: capacities up to 2^32 - 1, the numbers a node id can have besides NIL; beyond that the source truncates ids.
- `contains` of the research shards, which promotes (`research/src/experimental/sieve_c10s.rs:309-311`), is not in the runs; the production one is `Shard.Shard.Contains`.
- Cache.Cache.Retain: the closure is a function of its call count, the key and the value, which stands for its state and for a panic; panics in a user's `Drop`, `Clone` or `Eq` are not modelled.
- Shard.Shard.Lend: the arena of a drained shard passes to the drain, which holds it as values. In the source the entries stay in place behind an exclusive borrow, so aliasing between drain and cache is not captured; a leaked drain leaves the shards valid and empty.
- `Drop` of a shard: the first loop of `clear`, proved as `Shard.Shard.DropEntries`.
- Claim.StepKeeps: linearizability of c12s and uniqueness of keys are not claimed; duplicates are allowed by design (`research/src/experimental/sieve_c12s.rs:26-37`).
- Fourth alternative of c10s `writer_evict_one` (the first live position from the start): shown never to be needed, since a live position from the hand on exists or the hand is at the start.
- `Debug`, `Extend`, `IntoIterator`, borrowed keys, the slot-size type machinery, benchmarks and scripts.

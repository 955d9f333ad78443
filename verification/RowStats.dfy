/**
 What each call adds to the counters. Only promoting lookups count as hits or misses, only
 inserts as insertions, and only an insert that had to make room as an eviction.
 */
module RowStats {
  import opened Sieve
  import opened Sharded
  import opened Counters

  /** What a call adds, if it found `was` under its key and replied `r`. */
  function Charge<K, V>(call: Call<K, V>, r: Reply<K, V>, was: Option<V>): Stats {
    var looked := if was.Some? then Stats(1, 0, 0, 0) else Stats(0, 1, 0, 0);
    var evictions := if r.evicted.Some? then 1 else 0;
    match call
    case Look(_) => looked
    case Amend(_, promote, _) => if promote then looked else NOTHING
    case Write(_, _) => Stats(0, 0, 1, evictions)
    case LookOrWrite(_, _) => if was.Some? then looked else Stats(0, 1, 1, evictions)
    case _ => NOTHING
  }

  /** Hits, misses, insertions and evictions of one call, by what its queue has and does. */
  lemma CallCharge<K(!new), V>(qs: Row<K, V>, caps: seq<nat>, route: Routing<K>, call: Call<K, V>)
    requires Sound(qs, caps, route) && !call.Filter? && !call.Sift? && !call.Wipe?
    ensures SoundAt(qs, caps, route, route(call.key))
    ensures var q, cap := qs[route(call.key)], caps[route(call.key)];
      var hit := Has(q, call.key);
      Charge(call, Step(qs, caps, route, call).0, PeekAt(qs, route, call.key)) ==
      match call
      case Look(_) => if hit then Stats(1, 0, 0, 0) else Stats(0, 1, 0, 0)
      case Amend(_, promote, _) =>
        if !promote then NOTHING else if hit then Stats(1, 0, 0, 0) else Stats(0, 1, 0, 0)
      case Write(k, v) => Stats(0, 0, 1, if Insert(q, cap, k, v).0.Some? then 1 else 0)
      case LookOrWrite(k, v) =>
        if hit then Stats(1, 0, 0, 0) else Stats(0, 1, 1, if Insert(q, cap, k, v).0.Some? then 1 else 0)
      case _ => NOTHING
  {
    hide Insert, Get, Remove, Change;
    assert SoundAt(qs, caps, route, route(call.key));
    HasIsPeek(qs[route(call.key)], call.key);
  }

  /** What the call finds under its key. */
  ghost function FoundBy<K(!new), V>(qs: Row<K, V>, caps: seq<nat>, route: Routing<K>, call: Call<K, V>): Option<V>
    requires Sound(qs, caps, route)
  {
    if call.Filter? || call.Sift? || call.Wipe? then None else PeekAt(qs, route, call.key)
  }

  /** What a run of calls adds. */
  ghost function Charges<K(!new), V>(qs: Row<K, V>, caps: seq<nat>, route: Routing<K>, calls: seq<Call<K, V>>): Stats
    requires Sound(qs, caps, route)
    decreases |calls|
  {
    hide Sound, Step, FoundBy;
    if calls == [] then NOTHING
    else
      var n := |calls| - 1;
      var before := Play(qs, caps, route, calls[..n]).0;
      Plus(Charges(qs, caps, route, calls[..n]),
           Charge(calls[n], Step(before, caps, route, calls[n]).0, FoundBy(before, caps, route, calls[n])))
  }

  /** How many of the calls are lookups that promote. */
  function Lookups<K, V>(calls: seq<Call<K, V>>): nat {
    if calls == [] then 0
    else
      var n := |calls| - 1;
      var last := calls[n];
      Lookups(calls[..n]) + if last.Look? || last.LookOrWrite? || (last.Amend? && last.promote) then 1 else 0
  }

  function Writes<K, V>(calls: seq<Call<K, V>>): nat {
    if calls == [] then 0 else Writes(calls[..|calls| - 1]) + if calls[|calls| - 1].Write? then 1 else 0
  }

  /** How many of the promoting lookups answered that nothing is there. */
  function Missed<K, V>(calls: seq<Call<K, V>>, replies: seq<Reply<K, V>>): nat
    requires |replies| == |calls|
  {
    if calls == [] then 0
    else
      var n := |calls| - 1;
      var last := calls[n];
      Missed(calls[..n], replies[..n]) +
      if (last.Look? || (last.Amend? && last.promote)) && replies[n].value.None? then 1 else 0
  }

  /** How many of the calls evicted. */
  function Evicted<K, V>(replies: seq<Reply<K, V>>): nat {
    if replies == [] then 0
    else Evicted(replies[..|replies| - 1]) + if replies[|replies| - 1].evicted.Some? then 1 else 0
  }

  lemma OnlyInsertsEvict<K(!new), V>(qs: Row<K, V>, caps: seq<nat>, route: Routing<K>, call: Call<K, V>)
    requires Sound(qs, caps, route)
    ensures var r := Step(qs, caps, route, call).0;
      call.Look? || call.Amend? ==> r.value == FoundBy(qs, caps, route, call)
    ensures var r := Step(qs, caps, route, call).0;
      r.evicted.Some? ==> call.Write? || (call.LookOrWrite? && FoundBy(qs, caps, route, call).None?)
  {
    hide Insert, Remove;
  }

  /**
   Over any run: hits and misses together are the promoting lookups; the misses are those
   that answered nothing and those that inserted, which with the inserts are the
   insertions; and evictions are the calls that evicted.
   */
  lemma {:induction false} ChargesCount<K(!new), V>(
    qs: Row<K, V>, caps: seq<nat>, route: Routing<K>, calls: seq<Call<K, V>>)
    requires Sound(qs, caps, route)
    ensures var all := Charges(qs, caps, route, calls);
      && all.hits + all.misses == Lookups(calls)
      && all.evictions == Evicted(Play(qs, caps, route, calls).1) <= all.insertions
      && all.insertions + Missed(calls, Play(qs, caps, route, calls).1) == Writes(calls) + all.misses
    decreases |calls|
  {
    hide Sound, Step, FoundBy, Charge, Evicted, Lookups, Writes, Missed;
    if calls == [] {
      NoCalls<K, V>();
    } else {
      var n := |calls| - 1;
      ChargesCount(qs, caps, route, calls[..n]);
      var (before, replies) := Play(qs, caps, route, calls[..n]);
      OnlyInsertsEvict(before, caps, route, calls[n]);
      var r, all := Step(before, caps, route, calls[n]).0, Play(qs, caps, route, calls).1;
      assert all == replies + [r];
      OneMoreCall(calls, replies, r, FoundBy(before, caps, route, calls[n]));
    }
  }

  lemma NoCalls<K, V>()
    ensures Lookups<K, V>([]) == Writes<K, V>([]) == Missed<K, V>([], []) == Evicted<K, V>([]) == 0
  {
  }

  lemma OneMoreCall<K, V>(calls: seq<Call<K, V>>, replies: seq<Reply<K, V>>, r: Reply<K, V>, was: Option<V>)
    requires |calls| == |replies| + 1
    requires var call := calls[|calls| - 1]; call.Look? || call.Amend? ==> r.value == was
    requires var call := calls[|calls| - 1]; r.evicted.Some? ==> call.Write? || (call.LookOrWrite? && was.None?)
    ensures var call, init, more := calls[|calls| - 1], calls[..|calls| - 1], Charge(calls[|calls| - 1], r, was);
      && Lookups(calls) == Lookups(init) + more.hits + more.misses
      && Evicted(replies + [r]) == Evicted(replies) + more.evictions
      && Writes(calls) == Writes(init) + (if call.Write? then 1 else 0)
      && more.insertions + Missed(calls, replies + [r]) ==
         Missed(init, replies) + (if call.Write? then 1 else 0) + more.misses
      && more.evictions <= more.insertions
  {
    var all, n := replies + [r], |replies|;
    assert all[..n] == replies && all[n] == r && calls[..n] == calls[..|calls| - 1];
  }
}

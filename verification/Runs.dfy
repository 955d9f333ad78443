/**
 Whole runs: every implementation, driven by one thread from empty through any calls,
 answers exactly as the policy on its plain queue does, whatever the hash function, the
 slot size or the scan used; so they all answer as the reference implementation does.
 */
module Runs {
  import opened Tags
  import opened Sieve
  import opened SieveLaws
  import opened Remap
  import Dense = Shard
  import Holey
  import Orig
  import Versioned

  datatype Op<+K, +V> = DoGet(key: K) | DoInsert(key: K, value: V) | DoRemove(key: K)

  datatype Answer<+K, +V> = Got(value: Option<V>) | Inserted(evicted: Option<(K, V)>) | Removed(value: Option<V>)

  function Step<K(==), V>(q: Queue<K, V>, capacity: nat, op: Op<K, V>): (Answer<K, V>, Queue<K, V>)
    requires Valid(q) && 0 < capacity && |q.items| <= capacity
  {
    match op
    case DoGet(key) => var (r, q') := Get(q, key); (Got(r), q')
    case DoInsert(key, value) => var (r, q') := Insert(q, capacity, key, value); (Inserted(r), q')
    case DoRemove(key) => var (r, q') := Remove(q, key); (Removed(r), q')
  }

  /** The research shards have no removal. */
  predicate NoRemovals<K, V>(ops: seq<Op<K, V>>) {
    forall i | 0 <= i < |ops| :: !ops[i].DoRemove?
  }

  lemma StepKeepsValid<K, V>(q: Queue<K, V>, capacity: nat, op: Op<K, V>)
    requires Valid(q) && 0 < capacity && |q.items| <= capacity
    ensures var q' := Step(q, capacity, op).1; Valid(q') && |q'.items| <= capacity
  {
    match op
    case DoGet(key) => GetKeepsValid(q, key);
    case DoInsert(key, value) => InsertKeepsValid(q, capacity, key, value);
    case DoRemove(key) => RemovePeek(q, key, key);
  }

  /** The queue after the calls `ops`. */
  function After<K(==), V>(q: Queue<K, V>, capacity: nat, ops: seq<Op<K, V>>): (r: Queue<K, V>)
    requires Valid(q) && 0 < capacity && |q.items| <= capacity
    ensures Valid(r) && |r.items| <= capacity
    decreases |ops|
  {
    if ops == [] then q
    else
      var n := |ops| - 1;
      StepKeepsValid(After(q, capacity, ops[..n]), capacity, ops[n]);
      Step(After(q, capacity, ops[..n]), capacity, ops[n]).1
  }

  /** The answers to the calls `ops`, one by one. */
  function Answers<K(==), V>(q: Queue<K, V>, capacity: nat, ops: seq<Op<K, V>>): (r: seq<Answer<K, V>>)
    requires Valid(q) && 0 < capacity && |q.items| <= capacity
    ensures |r| == |ops|
    decreases |ops|
  {
    if ops == [] then []
    else
      var n := |ops| - 1;
      Answers(q, capacity, ops[..n]) + [Step(After(q, capacity, ops[..n]), capacity, ops[n]).0]
  }

  lemma Prefix<T>(ops: seq<T>, i: nat)
    requires i < |ops|
    ensures ops[..i + 1][..i] == ops[..i] && ops[..i + 1][i] == ops[i]
  {
  }

  method RunDense<K(==), V>(capacity: nat, shift: bv16, hasher: K -> bv64, hasAvx2: bool, ops: seq<Op<K, V>>)
    returns (answers: seq<Answer<K, V>>)
    requires 0 < capacity <= MAX_PER_SHARD && Dense.SlotShift(shift)
    ensures answers == Answers(Empty(), capacity, ops)
  {
    hide Dense.Shard.Valid, Dense.Shard.IdRow, NextIds, IdsWithout;
    var s := new Dense.Shard<K, V>(capacity, shift, hasher);
    answers := [];
    for i := 0 to |ops|
      invariant s.Valid() && s.Capacity() == capacity && s.scheme.hasher == hasher
      invariant fresh(s.Repr())
      invariant s.queue == After(Empty(), capacity, ops[..i])
      invariant answers == Answers(Empty(), capacity, ops[..i])
    {
      Prefix(ops, i);
      match ops[i]
      case DoGet(key) =>
        var r := s.Get(key, hasher(key), hasAvx2);
        answers := answers + [Got(r)];
      case DoInsert(key, value) =>
        var e := s.Insert(key, value, hasher(key), hasAvx2);
        answers := answers + [Inserted(e)];
      case DoRemove(key) =>
        var r := s.Remove(key, hasher(key), hasAvx2);
        answers := answers + [Removed(r)];
    }
    assert ops[..|ops|] == ops;
  }

  method RunOrig<K(==), V>(capacity: nat, ops: seq<Op<K, V>>) returns (answers: seq<Answer<K, V>>)
    requires 0 < capacity <= Orig.NIL
    ensures answers == Answers(Empty(), capacity, ops)
  {
    hide Orig.SieveCache.Valid;
    var s := new Orig.SieveCache<K, V>(capacity);
    answers := [];
    for i := 0 to |ops|
      invariant s.Valid() && s.capacity == capacity && fresh(s)
      invariant s.queue == After(Empty(), capacity, ops[..i])
      invariant answers == Answers(Empty(), capacity, ops[..i])
    {
      Prefix(ops, i);
      match ops[i]
      case DoGet(key) =>
        var r := s.Get(key);
        answers := answers + [Got(r)];
      case DoInsert(key, value) =>
        var e := s.Insert(key, value);
        answers := answers + [Inserted(e)];
      case DoRemove(key) =>
        var r := s.Remove(key);
        answers := answers + [Removed(r)];
    }
    assert ops[..|ops|] == ops;
  }

  /**
   The production shard against the reference: for every capacity from 1 to 64 and every
   run of lookups, inserts and removals they answer alike, evicted pairs included.
   */
  method MatchesReference<K(==), V>(capacity: nat, shift: bv16, hasher: K -> bv64, hasAvx2: bool, ops: seq<Op<K, V>>)
    returns (dense: seq<Answer<K, V>>, reference: seq<Answer<K, V>>)
    requires 0 < capacity <= MAX_PER_SHARD && Dense.SlotShift(shift)
    ensures dense == reference == Answers(Empty(), capacity, ops)
  {
    dense := RunDense(capacity, shift, hasher, hasAvx2, ops);
    reference := RunOrig(capacity, ops);
  }

  method RunHoley<K(==), V>(capacity: nat, layout: Layout, hasher: K -> bv64, conditionalSet: bool,
                           hasAvx2: bool, ops: seq<Op<K, V>>)
    returns (answers: seq<Answer<K, V>>)
    requires 0 < capacity <= MAX_PER_SHARD && ValidLayout(layout) && !layout.versioned && NoRemovals(ops)
    ensures answers == Answers(Empty(), capacity, ops)
  {
    hide Holey.Shard.Valid;
    var s := new Holey.Shard<K, V>(capacity, layout, hasher, conditionalSet);
    answers := [];
    for i := 0 to |ops|
      invariant s.Valid() && s.Capacity() == capacity && s.scheme.hasher == hasher
      invariant fresh(s) && fresh(s.tags) && fresh(s.visited) && fresh(s.entries)
      invariant s.queue == After(Empty(), capacity, ops[..i])
      invariant answers == Answers(Empty(), capacity, ops[..i])
    {
      Prefix(ops, i);
      match ops[i]
      case DoGet(key) =>
        var r := s.GetByHash(key, hasher(key), hasAvx2);
        answers := answers + [Got(r)];
      case DoInsert(key, value) =>
        var e := s.Insert(key, value, hasher(key));
        answers := answers + [Inserted(e)];
    }
    assert ops[..|ops|] == ops;
  }

  method RunVersioned<K(==), V>(capacity: nat, layout: Layout, hasher: K -> bv64, maxRetry: nat,
                                hasAvx2: bool, retrying: bool, ops: seq<Op<K, V>>)
    returns (answers: seq<Answer<K, V>>)
    requires 0 < capacity <= MAX_PER_SHARD && ValidLayout(layout) && layout.versioned && 0 < maxRetry
    requires NoRemovals(ops)
    ensures answers == Answers(Empty(), capacity, ops)
  {
    hide Versioned.Shard.Valid;
    var s := new Versioned.Shard<K, V>(capacity, layout, hasher, maxRetry);
    answers := [];
    for i := 0 to |ops|
      invariant s.Valid() && s.Capacity() == capacity && s.scheme.hasher == hasher
      invariant fresh(s) && fresh(s.tags) && fresh(s.visited) && fresh(s.entries)
      invariant s.queue == After(Empty(), capacity, ops[..i])
      invariant answers == Answers(Empty(), capacity, ops[..i])
    {
      Prefix(ops, i);
      match ops[i]
      case DoGet(key) =>
        var r := s.Get(key, hasher(key), hasAvx2, retrying);
        answers := answers + [Got(r)];
      case DoInsert(key, value) =>
        var e := s.Insert(key, value, hasher(key), hasAvx2 && retrying);
        answers := answers + [Inserted(e)];
    }
    assert ops[..|ops|] == ops;
  }

  /**
   For every capacity from 1 to 64 and every run of lookups and inserts from empty, the
   reference and the five implementations answer alike, call by call, evicted pairs
   included. Their slot sizes, tag layouts and hash functions may all differ.
   */
  method AllAnswerAlike<K(==), V>(capacity: nat, shift: bv16, wide: Layout, narrow: Layout,
                                  h: K -> bv64, g: K -> bv64, hasAvx2: bool, ops: seq<Op<K, V>>)
    returns (reference: seq<Answer<K, V>>, dense: seq<Answer<K, V>>, c10: seq<Answer<K, V>>, c11: seq<Answer<K, V>>,
             c13: seq<Answer<K, V>>, c14: seq<Answer<K, V>>)
    requires 0 < capacity <= MAX_PER_SHARD && Dense.SlotShift(shift) && NoRemovals(ops)
    requires ValidLayout(wide) && !wide.versioned && ValidLayout(narrow) && narrow.versioned
    ensures reference == dense == c10 == c11 == c13 == c14 == Answers(Empty(), capacity, ops)
  {
    dense, reference := MatchesReference(capacity, shift, h, hasAvx2, ops);
    c10 := RunHoley(capacity, wide, g, false, hasAvx2, ops);
    c11 := RunHoley(capacity, wide, g, true, hasAvx2, ops);
    c13 := RunVersioned(capacity, narrow, g, 4, hasAvx2, false, ops);
    c14 := RunVersioned(capacity, narrow, g, 1, hasAvx2, true, ops);
  }
}

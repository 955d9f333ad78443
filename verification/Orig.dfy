/**
 `sieve_orig`: the reference implementation, a doubly linked list over an arena of nodes
 with a free list and a key index. The head is the newest entry, the tail the oldest, and
 the hand walks from the tail towards the head.
 */
module Orig {
  import opened Sieve
  import opened Links

  /** The null link. */
  const NIL: nat := 0xFFFF_FFFF

  datatype Node<+K, +V> = Node(key: K, value: V, freq: nat, prev: nat, next: nat)

  /** `None` is a node that is free. */
  type Nodes<+K, +V> = seq<Option<Node<K, V>>>

  // ---- the list ----

  /** The neighbour towards the head, which is newer. */
  ghost function Newer(order: seq<nat>, i: nat): nat {
    if i + 1 < |order| then order[i + 1] else NIL
  }

  /** The neighbour towards the tail, which is older. */
  ghost function Older(order: seq<nat>, i: nat): nat {
    if 0 < i <= |order| then order[i - 1] else NIL
  }

  ghost predicate NodeAt<K, V>(nodes: Nodes<K, V>, order: seq<nat>, i: nat, item: Item<K, V>)
    requires i < |order|
  {
    && order[i] < |nodes| && order[i] < NIL
    && nodes[order[i]] ==
       Some(Node(item.key, item.value, if item.visited then 1 else 0, Newer(order, i), Older(order, i)))
  }

  /** `order` names the nodes of the list from the oldest to the newest; they hold the items. */
  ghost predicate Chained<K, V>(nodes: Nodes<K, V>, order: seq<nat>, items: seq<Item<K, V>>) {
    && |order| == |items| && Distinct(order)
    && forall i | 0 <= i < |order| :: NodeAt(nodes, order, i, items[i])
  }

  /** The nodes in use are those of the list. */
  ghost predicate InUse<K, V>(nodes: Nodes<K, V>, order: seq<nat>) {
    forall e | 0 <= e < |nodes| :: nodes[e].Some? <==> e in order
  }

  /** The free list names each free node once. */
  ghost predicate Free<K, V>(nodes: Nodes<K, V>, free: seq<nat>) {
    Distinct(free) && forall e :: e in free <==> 0 <= e < |nodes| && nodes[e].None?
  }

  /** The links of node `id` change, and nothing else. */
  function Relink<K, V>(nodes: Nodes<K, V>, id: nat, prev: nat, next: nat): Nodes<K, V>
    requires id < |nodes| && nodes[id].Some?
  {
    nodes[id := Some(nodes[id].value.(prev := prev, next := next))]
  }

  /** The item of a node changes in place. */
  lemma SetItem<K, V>(nodes: Nodes<K, V>, order: seq<nat>, items: seq<Item<K, V>>, i: nat, value: V, visited: bool)
    requires Chained(nodes, order, items) && i < |order|
    ensures order[i] < |nodes| && nodes[order[i]].Some?
    ensures var node := nodes[order[i]].value.(value := value, freq := if visited then 1 else 0);
      Chained(nodes[order[i] := Some(node)], order, items[i := Item(items[i].key, value, visited)])
  {
    assert NodeAt(nodes, order, i, items[i]);
    var node := nodes[order[i]].value.(value := value, freq := if visited then 1 else 0);
    var items' := items[i := Item(items[i].key, value, visited)];
    forall j | 0 <= j < |order| ensures NodeAt(nodes[order[i] := Some(node)], order, j, items'[j]) {
      assert NodeAt(nodes, order, j, items[j]);
      assert j != i ==> order[j] != order[i];
    }
  }

  /** The nodes around the `i`-th are linked to each other. */
  ghost function Bypassed<K, V>(nodes: Nodes<K, V>, order: seq<nat>, items: seq<Item<K, V>>, i: nat): Nodes<K, V>
    requires Chained(nodes, order, items) && i < |order|
  {
    assert NodeAt(nodes, order, i, items[i]);
    var a := if i + 1 < |order| then
               assert NodeAt(nodes, order, i + 1, items[i + 1]);
               nodes[order[i + 1] := Some(nodes[order[i + 1]].value.(next := Older(order, i)))]
             else nodes;
    if i > 0 then
      assert NodeAt(nodes, order, i - 1, items[i - 1]);
      a[order[i - 1] := Some(nodes[order[i - 1]].value.(prev := Newer(order, i)))]
    else a
  }

  /** What the two writes to the neighbours leave, read through the node's own links. */
  ghost predicate Rejoins<K, V>(nodes: Nodes<K, V>, node: Node<K, V>, after: Nodes<K, V>) {
    && (node.prev != NIL ==> node.prev < |nodes| && nodes[node.prev].Some?)
    && var a := if node.prev == NIL then nodes
                else nodes[node.prev := Some(nodes[node.prev].value.(next := node.next))];
       && (node.next != NIL ==> node.next < |nodes| && a[node.next].Some?)
       && after == if node.next == NIL then a
                   else a[node.next := Some(a[node.next].value.(prev := node.prev))]
  }

  lemma BypassRejoins<K, V>(nodes: Nodes<K, V>, order: seq<nat>, items: seq<Item<K, V>>, i: nat)
    requires Chained(nodes, order, items) && i < |order|
    ensures order[i] < |nodes| && nodes[order[i]].Some?
    ensures Rejoins(nodes, nodes[order[i]].value, Bypassed(nodes, order, items, i))
    ensures var node := nodes[order[i]].value;
      && HeadOf(Without(order, i)) == (if node.prev == NIL then node.next else HeadOf(order))
      && TailOf(Without(order, i)) == (if node.next == NIL then node.prev else TailOf(order))
    ensures order[i] !in Without(order, i)
  {
    assert NodeAt(nodes, order, i, items[i]);
    if i + 1 < |order| { assert NodeAt(nodes, order, i + 1, items[i + 1]); }
    if i > 0 { assert NodeAt(nodes, order, i - 1, items[i - 1]); }
    WithoutElement(order, i, order[i]);
  }

  lemma Bypass<K, V>(nodes: Nodes<K, V>, order: seq<nat>, items: seq<Item<K, V>>, i: nat)
    requires Chained(nodes, order, items) && i < |order|
    ensures var nodes' := Bypassed(nodes, order, items, i);
      && |nodes'| == |nodes| && order[i] < |nodes| && nodes'[order[i]] == nodes[order[i]]
      && (forall e | 0 <= e < |nodes| :: nodes'[e].Some? <==> nodes[e].Some?)
      && Chained(nodes', Without(order, i), Without(items, i))
  {
    var nodes', order' := Bypassed(nodes, order, items, i), Without(order, i);
    assert NodeAt(nodes, order, i, items[i]);
    if i + 1 < |order| { assert NodeAt(nodes, order, i + 1, items[i + 1]) && order[i + 1] != order[i]; }
    if i > 0 { assert NodeAt(nodes, order, i - 1, items[i - 1]) && order[i - 1] != order[i]; }
    forall j | 0 <= j < |order'| ensures NodeAt(nodes', order', j, Without(items, i)[j]) {
      var k := if j < i then j else j + 1;
      assert NodeAt(nodes, order, k, items[k]);
      assert k != i + 1 && i + 1 < |order| ==> order[k] != order[i + 1];
      assert k + 1 != i && i > 0 ==> order[k] != order[i - 1];
    }
  }

  /** A node not in the list may change. */
  lemma Elsewhere<K, V>(nodes: Nodes<K, V>, order: seq<nat>, items: seq<Item<K, V>>, id: nat, node: Option<Node<K, V>>)
    requires Chained(nodes, order, items) && id < |nodes| && id !in order
    ensures Chained(nodes[id := node], order, items)
  {
    forall j | 0 <= j < |order| ensures NodeAt(nodes[id := node], order, j, items[j]) {
      assert NodeAt(nodes, order, j, items[j]);
    }
  }

  lemma Longer<K, V>(nodes: Nodes<K, V>, order: seq<nat>, items: seq<Item<K, V>>, node: Option<Node<K, V>>)
    requires Chained(nodes, order, items)
    ensures Chained(nodes + [node], order, items)
  {
    forall j | 0 <= j < |order| ensures NodeAt(nodes + [node], order, j, items[j]) {
      assert NodeAt(nodes, order, j, items[j]);
    }
  }

  /** A node of its own joins at the head; the old head links up to it. */
  lemma Prepend<K, V>(nodes: Nodes<K, V>, order: seq<nat>, items: seq<Item<K, V>>, id: nat, item: Item<K, V>)
    requires Chained(nodes, order, items) && id < |nodes| && id < NIL && id !in order
    requires var n := |order|;
      nodes[id] == Some(Node(item.key, item.value, if item.visited then 1 else 0, NIL, Older(order, n)))
    ensures var n := |order|;
      (n > 0 ==> order[n - 1] < |nodes| && nodes[order[n - 1]].Some?) &&
      Chained(if n > 0 then nodes[order[n - 1] := Some(nodes[order[n - 1]].value.(prev := id))] else nodes,
              order + [id], items + [item])
  {
    var n := |order|;
    if n > 0 { assert NodeAt(nodes, order, n - 1, items[n - 1]); }
    var nodes' := if n > 0 then nodes[order[n - 1] := Some(nodes[order[n - 1]].value.(prev := id))] else nodes;
    forall j | 0 <= j < n + 1 ensures NodeAt(nodes', order + [id], j, (items + [item])[j]) {
      if j < n {
        assert NodeAt(nodes, order, j, items[j]);
        assert j < n - 1 ==> order[j] != order[n - 1];
      }
    }
  }

  // ---- nodes in use and nodes that are free ----

  ghost predicate SameUse<K, V>(a: Nodes<K, V>, b: Nodes<K, V>) {
    |a| == |b| && forall e | 0 <= e < |a| :: a[e].Some? <==> b[e].Some?
  }

  lemma UseSame<K, V>(a: Nodes<K, V>, b: Nodes<K, V>, order: seq<nat>, free: seq<nat>)
    requires SameUse(a, b)
    ensures InUse(a, order) ==> InUse(b, order)
    ensures Free(a, free) ==> Free(b, free)
  {
  }

  /** Node `id`, the `i`-th, is in use no longer. */
  lemma UseLoses<K, V>(a: Nodes<K, V>, b: Nodes<K, V>, order: seq<nat>, i: nat)
    requires InUse(a, order) && Distinct(order) && i < |order| && order[i] < |a| && |b| == |a|
    requires forall e | 0 <= e < |a| :: b[e].Some? <==> a[e].Some? && e != order[i]
    ensures InUse(b, Without(order, i))
  {
    forall e | 0 <= e < |b| ensures b[e].Some? <==> e in Without(order, i) { WithoutElement(order, i, e); }
  }

  /** Node `id` is in use now, an old one or a new one. */
  lemma UseGains<K, V>(a: Nodes<K, V>, b: Nodes<K, V>, order: seq<nat>, id: nat)
    requires InUse(a, order) && id < |b| && |a| <= |b| && (forall e :: e in order ==> 0 <= e < |a|)
    requires forall e | 0 <= e < |b| :: b[e].Some? <==> e == id || (e < |a| && a[e].Some?)
    ensures InUse(b, order + [id])
  {
  }

  lemma FreePush<K, V>(nodes: Nodes<K, V>, free: seq<nat>, id: nat)
    requires Free(nodes, free) && id < |nodes| && nodes[id].Some?
    ensures Free(nodes[id := None], free + [id])
  {
    var free' := free + [id];
    assert id !in free;
    forall e ensures e in free' <==> 0 <= e < |nodes| && nodes[id := None][e].None? {
      if e in free { assert e in free'; }
      if e == id { assert free'[|free|] == e; }
    }
  }

  lemma FreePop<K, V>(nodes: Nodes<K, V>, free: seq<nat>, node: Node<K, V>)
    requires Free(nodes, free) && free != []
    ensures var n := |free| - 1;
      free[n] < |nodes| && nodes[free[n]].None? && Free(nodes[free[n] := Some(node)], free[..n])
  {
    var n := |free| - 1;
    var id := free[n];
    assert id in free;
    forall e ensures e in free[..n] <==> 0 <= e < |nodes| && nodes[id := Some(node)][e].None? {
      if e in free && e != id {
        var j :| 0 <= j < |free| && free[j] == e;
        assert free[..n][j] == e;
      }
    }
  }

  lemma FreeNew<K, V>(nodes: Nodes<K, V>, node: Node<K, V>)
    requires Free(nodes, [])
    ensures Free(nodes + [Some(node)], [])
  {
    var none: seq<nat> := [];
    assert forall e | 0 <= e < |nodes| :: nodes[e].None? <==> e in none;
  }

  // ---- the hand and the index ----

  /** The hand names the entry at position `m`, or nothing, and then the walk starts at the tail. */
  ghost predicate HandIs(h: nat, order: seq<nat>, m: nat) {
    if h == NIL then m == 0 else m < |order| && order[m] == h
  }

  /** No id is the null link. */
  ghost predicate InRange32(order: seq<nat>) {
    forall j | 0 <= j < |order| :: order[j] < NIL
  }

  lemma ChainInRange<K, V>(nodes: Nodes<K, V>, order: seq<nat>, items: seq<Item<K, V>>)
    requires Chained(nodes, order, items)
    ensures InRange32(order)
  {
    forall j | 0 <= j < |order| ensures order[j] < NIL { assert NodeAt(nodes, order, j, items[j]); }
  }

  lemma ChainDistinct<K, V>(nodes: Nodes<K, V>, order: seq<nat>, items: seq<Item<K, V>>)
    requires Chained(nodes, order, items)
    ensures Distinct(order) && |order| == |items|
  {
  }

  lemma KeysSame<K, V>(a: seq<Item<K, V>>, b: seq<Item<K, V>>)
    requires UniqueKeys(a) && |a| == |b| && forall i | 0 <= i < |a| :: b[i].key == a[i].key
    ensures UniqueKeys(b)
  {
  }

  /** A node leaves: a hand on it goes to the next newer one, or to nothing. */
  lemma HandLeaves(h: nat, order: seq<nat>, m: nat, i: nat)
    requires HandIs(h, order, m) && Distinct(order) && i < |order| && InRange32(order)
    ensures var n := |order| - 1; var m' := if m > i then m - 1 else m;
      HandIs(if h == order[i] then Newer(order, i) else h, Without(order, i), if m' >= n then 0 else m')
  {
  }

  lemma HandStays(h: nat, order: seq<nat>, m: nat, id: nat)
    requires HandIs(h, order, m)
    ensures HandIs(h, order + [id], m)
  {
  }

  /** The index has the key of each entry, with its node, and no other key. */
  ghost predicate Indexed<K, V>(index: map<K, nat>, order: seq<nat>, items: seq<Item<K, V>>) {
    && |order| == |items|
    && (forall i | 0 <= i < |items| :: items[i].key in index && index[items[i].key] == order[i])
    && (forall k | k in index :: IndexOf(items, k) < |items|)
  }

  lemma IndexFinds<K, V>(index: map<K, nat>, order: seq<nat>, items: seq<Item<K, V>>, key: K)
    requires Indexed(index, order, items)
    ensures var i := IndexOf(items, key); key in index <==> i < |items|
    ensures var i := IndexOf(items, key); i < |items| ==> index[key] == order[i]
  {
  }

  lemma IndexLoses<K, V>(index: map<K, nat>, order: seq<nat>, items: seq<Item<K, V>>, i: nat)
    requires Indexed(index, order, items) && UniqueKeys(items) && i < |items|
    ensures Indexed(index - {items[i].key}, Without(order, i), Without(items, i))
  {
    hide IndexOf, UniqueKeys;
    var items' := Without(items, i);
    KeysDiffer(items, i);
    forall k | k in index && k != items[i].key ensures IndexOf(items', k) < |items'| {
      var j := IndexOf(items, k);
      assert items'[if j < i then j else j - 1].key == k;
    }
  }

  lemma KeysDiffer<K, V>(items: seq<Item<K, V>>, i: nat)
    requires UniqueKeys(items) && i < |items|
    ensures forall j | 0 <= j < |items| && j != i :: items[j].key != items[i].key
  {
  }

  lemma IndexGains<K, V>(index: map<K, nat>, order: seq<nat>, items: seq<Item<K, V>>, id: nat, item: Item<K, V>)
    requires Indexed(index, order, items) && item.key !in index
    ensures Indexed(index[item.key := id], order + [id], items + [item])
  {
    var items' := items + [item];
    forall k | k in index[item.key := id] ensures IndexOf(items', k) < |items'| {
      if k == item.key {
        assert items'[|items|].key == k;
      } else {
        assert items'[IndexOf(items, k)].key == k;
      }
    }
  }

  /** Values and flags may change under the same keys. */
  lemma IndexSame<K, V>(index: map<K, nat>, order: seq<nat>, a: seq<Item<K, V>>, b: seq<Item<K, V>>)
    requires Indexed(index, order, a) && |a| == |b| && forall i | 0 <= i < |a| :: b[i].key == a[i].key
    ensures Indexed(index, order, b)
  {
    forall k | k in index ensures IndexOf(b, k) < |b| { assert b[IndexOf(a, k)].key == k; }
  }

  // ---- the cache ----

  ghost function HeadOf(order: seq<nat>): nat { if order == [] then NIL else order[|order| - 1] }

  ghost function TailOf(order: seq<nat>): nat { if order == [] then NIL else order[0] }

  class SieveCache<K(==), V> {
    const capacity: nat
    var index: map<K, nat>
    var nodes: Nodes<K, V>
    var freeList: seq<nat>
    var head: nat
    var tail: nat
    var hand: nat
    var len: nat

    /** The queue this list stands for, and its nodes, oldest first. */
    ghost var queue: Queue<K, V>
    ghost var order: seq<nat>

    /** The list, its two ends, and the nodes it does not use. */
    ghost predicate Linkage()
      reads this`nodes, this`freeList, this`head, this`tail, this`queue, this`order
    {
      && 0 < capacity <= NIL
      && Chained(nodes, order, queue.items) && head == HeadOf(order) && tail == TailOf(order)
      && Free(nodes, freeList)
    }

    ghost predicate Valid()
      reads this
    {
      && Linkage() && InUse(nodes, order) && |nodes| == len + |freeList| <= capacity
      && len == |order|
      && HandIs(hand, order, queue.hand) && Indexed(index, order, queue.items) && Sieve.Valid(queue)
    }

    constructor (capacity: nat)
      requires 0 < capacity <= NIL
      ensures Valid() && this.capacity == capacity && queue == Empty()
    {
      this.capacity := capacity;
      index, nodes, freeList := map[], [], [];
      head, tail, hand, len := NIL, NIL, NIL, 0;
      queue, order := Empty(), [];
    }

    lemma Facts()
      requires Valid()
      ensures len == |order| == |queue.items| <= capacity && Distinct(order) && Sieve.Valid(queue)
    {
    }

    lemma MakesValid()
      requires Linkage() && InUse(nodes, order) && |nodes| == len + |freeList| <= capacity && len == |order|
      requires HandIs(hand, order, queue.hand) && Indexed(index, order, queue.items) && Sieve.Valid(queue)
      ensures Valid()
    {
    }

    method ContainsKey(key: K) returns (r: bool)
      requires Valid()
      ensures r == Has(queue, key)
    {
      IndexFinds(index, order, queue.items, key);
      r := key in index;
    }

    /** The node of a live key: new value or old, and marked. */
    method Rewrite(ghost i: nat, id: nat, value: V)
      requires Valid() && i < |order| && id == order[i]
      modifies this`nodes, this`queue
      ensures Valid()
      ensures queue == old(queue).(items :=
                         old(queue).items[i := old(queue).items[i].(value := value, visited := true)])
    {
      hide Chained, Indexed, HandIs, IndexOf, Free, InUse, UniqueKeys, Distinct;
      Facts();
      ChainAt(nodes, order, queue.items, i);
      ghost var before := nodes;
      SetItem(nodes, order, queue.items, i, value, true);
      ghost var items' := queue.items[i := queue.items[i].(value := value, visited := true)];
      IndexSame(index, order, queue.items, items');
      KeysSame(queue.items, items');
      nodes := nodes[id := Some(nodes[id].value.(value := value, freq := 1))];
      UseSame(before, nodes, order, freeList);
      queue := queue.(items := items');
    }

    /** A hit sets the visited flag; the list does not change. */
    method Get(key: K) returns (r: Option<V>)
      requires Valid()
      modifies this`nodes, this`queue
      ensures Valid() && (r, queue) == Sieve.Get(old(queue), key)
    {
      hide Chained, Indexed, HandIs;
      Facts();
      IndexFinds(index, order, queue.items, key);
      if key !in index { return None; }
      var id := index[key];
      ghost var i := IndexOf(queue.items, key);
      ChainAt(nodes, order, queue.items, i);
      var value := nodes[id].value.value;
      Rewrite(i, id, value);
      r := Some(value);
    }

    /** Takes the node out of the list; its neighbours and the ends close over it. */
    method Unlink(id: nat, ghost i: nat)
      requires Linkage() && i < |order| && id == order[i]
      modifies this`nodes, this`head, this`tail, this`queue, this`order
      ensures Linkage() && order == Without(old(order), i) && queue == DeleteAt(old(queue), i)
      ensures id < |nodes| == |old(nodes)| && id !in order
      ensures old(nodes)[id].Some? && nodes[id] == Some(old(nodes)[id].value.(prev := NIL, next := NIL))
      ensures forall e | 0 <= e < |nodes| :: nodes[e].Some? <==> old(nodes)[e].Some?
    {
      hide Without, Free, Chained, Bypassed, HeadOf, TailOf;
      ghost var items, before := queue.items, nodes;
      Bypass(nodes, order, items, i);
      BypassRejoins(nodes, order, items, i);
      var prev, next := nodes[id].value.prev, nodes[id].value.next;
      ghost var after := Bypassed(nodes, order, items, i);
      if prev != NIL {
        nodes := nodes[prev := Some(nodes[prev].value.(next := next))];
      } else {
        head := next;
      }
      if next != NIL {
        nodes := nodes[next := Some(nodes[next].value.(prev := prev))];
      } else {
        tail := prev;
      }
      assert nodes == after;
      Elsewhere(nodes, Without(order, i), Without(items, i), id, Some(nodes[id].value.(prev := NIL, next := NIL)));
      nodes := nodes[id := Some(nodes[id].value.(prev := NIL, next := NIL))];
      UseSame(before, nodes, order, freeList);
      order := Without(order, i);
      queue := DeleteAt(queue, i);
    }

    /** The node is read out and its place is free. */
    method FreeNode(id: nat) returns (node: Node<K, V>)
      requires Linkage() && id < |nodes| && nodes[id].Some? && id !in order
      modifies this`nodes, this`freeList
      ensures Linkage() && old(nodes)[id] == Some(node)
      ensures nodes == old(nodes)[id := None] && freeList == old(freeList) + [id]
    {
      hide Chained, Free;
      Elsewhere(nodes, order, queue.items, id, None);
      FreePush(nodes, freeList, id);
      node := nodes[id].value;
      nodes := nodes[id := None];
      freeList := freeList + [id];
    }

    /** Takes a free place, or a new one at the end. */
    method AllocNode(node: Node<K, V>) returns (id: nat)
      requires Linkage() && |nodes| <= capacity && (freeList == [] ==> |nodes| < capacity)
      modifies this`nodes, this`freeList
      ensures Linkage() && id < |nodes| && id < NIL && nodes[id] == Some(node) && id !in order
      ensures |old(nodes)| <= |nodes| <= capacity && |nodes| - |freeList| == |old(nodes)| - |old(freeList)| + 1
      ensures forall e | 0 <= e < |nodes| ::
        nodes[e].Some? <==> e == id || (e < |old(nodes)| && old(nodes)[e].Some?)
    {
      hide Chained, Free;
      if |freeList| > 0 {
        FreePop(nodes, freeList, node);
        id := freeList[|freeList| - 1];
        if id in order { InList(id); }
        Elsewhere(nodes, order, queue.items, id, Some(node));
        freeList := freeList[..|freeList| - 1];
        nodes := nodes[id := Some(node)];
      } else {
        id := |nodes|;
        if id in order { InList(id); }
        Longer(nodes, order, queue.items, Some(node));
        FreeNew(nodes, node);
        nodes := nodes + [Some(node)];
      }
    }

    lemma InList(id: nat)
      requires Linkage() && id in order
      ensures id < |nodes| && nodes[id].Some?
    {
      var i :| 0 <= i < |order| && order[i] == id;
      assert NodeAt(nodes, order, i, queue.items[i]);
    }

    /** The new node becomes the newest. */
    method LinkAtHead(id: nat, ghost item: Item<K, V>)
      requires Linkage() && id < |nodes| && id < NIL && id !in order
      requires nodes[id].Some? && nodes[id].value.key == item.key && nodes[id].value.value == item.value
      requires nodes[id].value.freq == if item.visited then 1 else 0
      modifies this`nodes, this`head, this`tail, this`queue, this`order
      ensures Linkage() && order == old(order) + [id] && |nodes| == |old(nodes)|
      ensures queue == old(queue).(items := old(queue).items + [item])
      ensures forall e | 0 <= e < |nodes| :: nodes[e].Some? <==> old(nodes)[e].Some?
    {
      hide Chained, Free;
      ghost var before := nodes;
      if order != [] { ChainAt(nodes, order, queue.items, |order| - 1); }
      var oldHead := head;
      Elsewhere(nodes, order, queue.items, id, Some(nodes[id].value.(prev := NIL, next := oldHead)));
      nodes := nodes[id := Some(nodes[id].value.(prev := NIL, next := oldHead))];
      Prepend(nodes, order, queue.items, id, item);
      if oldHead != NIL {
        nodes := nodes[oldHead := Some(nodes[oldHead].value.(prev := id))];
      } else {
        tail := id;
      }
      UseSame(before, nodes, order, freeList);
      head := id;
      order := order + [id];
      queue := queue.(items := queue.items + [item]);
    }

    /** From a node towards the head, and round again: the first one not visited. */
    method Walk(start: nat, ghost h: nat, ghost items: seq<Item<K, V>>) returns (cur: nat, ghost v: nat)
      requires Chained(nodes, order, items) && tail == TailOf(order) && h < len == |order| && start == order[h]
      modifies this`nodes
      ensures var r := Sweep(Flags(items), h);
        v == r.0 && cur == order[v] && Chained(nodes, order, WithFlags(items, r.1)) && SameUse(old(nodes), nodes)
    {
      hide Chained, Sweep;
      ghost var flags, before := Flags(items), nodes;
      cur, v := start, h;
      assert WithFlags(items, flags) == items;
      ChainAt(nodes, order, items, v);
      while nodes[cur].value.freq > 0
        modifies this`nodes
        invariant v < |flags| == len && cur == order[v]
        invariant Chained(nodes, order, WithFlags(items, flags)) && SameUse(before, nodes)
        invariant cur < |nodes| && nodes[cur].Some?
        invariant Sweep(flags, v) == Sweep(Flags(items), h)
        decreases Count(flags)
      {
        ghost var marked := WithFlags(items, flags);
        ChainAt(nodes, order, marked, v);
        SetItem(nodes, order, marked, v, marked[v].value, false);
        SweepTurn(flags, v);
        assert WithFlags(items, flags[v := false]) == marked[v := Item(marked[v].key, marked[v].value, false)];
        flags := flags[v := false];
        nodes := nodes[cur := Some(nodes[cur].value.(freq := 0))];
        var prev := nodes[cur].value.prev;
        cur := if prev != NIL then prev else tail;
        v := if v + 1 < len then v + 1 else 0;
        ChainAt(nodes, order, WithFlags(items, flags), v);
      }
      ChainAt(nodes, order, WithFlags(items, flags), v);
      SweepEnds(flags, v);
    }

    /** The victim, with the flags the walk passes over cleared. */
    method FindVictim() returns (cur: nat, ghost v: nat)
      requires Valid() && len > 0
      modifies this`nodes, this`queue
      ensures Valid() && order == old(order)
      ensures v < |order| && cur == order[v] && old(queue).hand < |old(queue).items|
      ensures (v, queue.(hand := v)) == Swept(old(queue))
      ensures queue.hand == old(queue).hand
    {
      hide Indexed, Chained, Sweep, Free, InUse, HandIs, UniqueKeys, Distinct;
      Facts();
      HandAt();
      ghost var items, before := queue.items, nodes;
      cur, v := Walk(if hand != NIL then hand else tail, queue.hand, items);
      ghost var items' := WithFlags(items, Sweep(Flags(items), queue.hand).1);
      IndexSame(index, order, items, items');
      KeysSame(items, items');
      UseSame(before, nodes, order, freeList);
      queue := queue.(items := items');
      MakesValid();
    }

    /** Evicts the sweep's victim; the hand goes to the next newer entry. */
    method EvictOne() returns (r: Option<(K, V)>)
      requires Valid()
      modifies this
      ensures Valid()
      ensures old(len) == 0 ==> r == None && queue == old(queue)
      ensures old(len) > 0 ==> old(queue).hand < |old(queue).items|
      ensures old(len) > 0 ==>
        var (v, swept) := Swept(old(queue));
        r == Some((old(queue).items[v].key, old(queue).items[v].value)) && queue == DeleteAt(swept, v)
      ensures len == if old(len) > 0 then old(len) - 1 else 0
    {
      hide Indexed, Chained, Sweep, Free, InUse, HandIs, UniqueKeys, Distinct;
      Facts();
      if (if hand != NIL then hand else tail) == NIL {
        NoEntry();
        return None;
      }
      SomeEntry();
      var cur;
      ghost var v;
      cur, v := FindVictim();
      Facts();
      ChainAt(nodes, order, queue.items, v);
      Points(cur, v);
      var key, value := TakeOut(cur, v);
      r := Some((key, value));
    }

    /** The hand stands on the victim while it is taken out. */
    method Points(id: nat, ghost v: nat)
      requires Valid() && v < |order| && id == order[v] && id < NIL && v < |queue.items|
      modifies this`hand, this`queue
      ensures Valid() && hand == id && queue == old(queue).(hand := v)
    {
      hide Indexed, Chained, Free, InUse;
      hand := id;
      queue := queue.(hand := v);
    }

    /** The walk starts at the hand, or at the tail. */
    lemma HandAt()
      requires Valid() && len > 0
      ensures queue.hand < len == |order|
      ensures (if hand != NIL then hand else tail) == order[queue.hand]
    {
      Facts();
    }

    /** With the hand on nothing and no tail the list is empty. */
    lemma NoEntry()
      requires Valid() && (if hand != NIL then hand else tail) == NIL
      ensures len == 0
    {
      Facts();
    }

    lemma SomeEntry()
      requires Valid() && (if hand != NIL then hand else tail) != NIL
      ensures len > 0
    {
      Facts();
    }

    /** A node leaves the list and the arena; a hand on it moves on first. */
    method Detach(id: nat, ghost i: nat) returns (node: Node<K, V>)
      requires Linkage() && InUse(nodes, order) && HandIs(hand, order, queue.hand) && i < |order| && id == order[i]
      modifies this`hand, this`nodes, this`head, this`tail, this`queue, this`order, this`freeList
      ensures Linkage() && order == Without(old(order), i) && queue == DeleteAt(old(queue), i)
      ensures InUse(nodes, order) && HandIs(hand, order, queue.hand)
      ensures |nodes| == |old(nodes)| && |freeList| == |old(freeList)| + 1
      ensures i < |old(queue).items| && node.key == old(queue).items[i].key && node.value == old(queue).items[i].value
    {
      hide Chained, Without, HandIs, Free, InUse, Distinct, InRange32;
      ghost var before, nodes0 := order, nodes;
      ChainAt(nodes, order, queue.items, i);
      ChainInRange(nodes, order, queue.items);
      ChainDistinct(nodes, order, queue.items);
      HandLeaves(hand, order, queue.hand, i);
      hide Linkage;
      if hand == id { hand := nodes[id].value.prev; }
      Unlink(id, i);
      node := FreeNode(id);
      UseLoses(nodes0, nodes, before, i);
    }

    /** A node leaves the list, the arena and the index. */
    method TakeOut(id: nat, ghost i: nat) returns (key: K, value: V)
      requires Valid() && i < |order| && id == order[i]
      modifies this
      ensures Valid() && queue == DeleteAt(old(queue), i) && len == old(len) - 1
      ensures i < |old(queue).items| && key == old(queue).items[i].key && value == old(queue).items[i].value
    {
      hide Indexed, Chained, HandIs, Free, InUse, UniqueKeys, IndexOf, Distinct, Linkage;
      Facts();
      IndexLoses(index, order, queue.items, i);
      DeleteKeepsValid(queue, i);
      hide Valid, Sieve.Valid, Without;
      var node := Detach(id, i);
      index := index - {node.key};
      len := len - 1;
      key, value := node.key, node.value;
      MakesValid();
    }

    method Remove(key: K) returns (r: Option<V>)
      requires Valid()
      modifies this
      ensures Valid() && (r, queue) == Sieve.Remove(old(queue), key)
    {
      hide Chained, Indexed, HandIs, Free, InUse;
      Facts();
      IndexFinds(index, order, queue.items, key);
      if key !in index { return None; }
      var _, value := TakeOut(index[key], IndexOf(queue.items, key));
      r := Some(value);
    }

    method Insert(key: K, value: V) returns (evicted: Option<(K, V)>)
      requires Valid()
      modifies this
      ensures Valid() && |old(queue).items| <= capacity
      ensures (evicted, queue) == Sieve.Insert(old(queue), capacity, key, value)
    {
      hide Chained, Indexed, HandIs, Free, InUse, Sweep, DeleteAt;
      Facts();
      IndexFinds(index, order, queue.items, key);
      if key in index {
        Rewrite(IndexOf(queue.items, key), index[key], value);
        return None;
      }
      if len == capacity {
        MissesStay(queue, key) by { HandInRange(); }
        evicted := EvictOne();
      } else {
        evicted := None;
      }
      Append1(key, value);
    }

    lemma HandInRange()
      requires Valid() && len > 0
      ensures queue.hand < |queue.items|
    {
    }

    /** The new entry joins at the head. */
    method Append1(key: K, value: V)
      requires Valid() && len < capacity && !Has(queue, key)
      modifies this
      ensures Valid() && queue == old(queue).(items := old(queue).items + [Item(key, value, false)])
    {
      hide Chained, Indexed, IndexOf, Free, InUse, UniqueKeys, HandIs;
      Facts();
      ghost var before, item, nodes0 := order, Item(key, value, false), nodes;
      IndexFinds(index, order, queue.items, key);
      forall e | e in order ensures 0 <= e < |nodes| { InList(e); }
      var id := AllocNode(Node(key, value, 0, NIL, NIL));
      LinkAtHead(id, item);
      IndexGains(index, before, old(queue).items, id, item);
      AppendKeepsValid(old(queue), item);
      UseGains(nodes0, nodes, before, id);
      HandStays(hand, before, queue.hand, id);
      index := index[key := id];
      len := len + 1;
    }
  }

  lemma ChainAt<K, V>(nodes: Nodes<K, V>, order: seq<nat>, items: seq<Item<K, V>>, i: nat)
    requires Chained(nodes, order, items) && i < |order|
    ensures |order| == |items| && order[i] < |nodes| && order[i] < NIL
    ensures nodes[order[i]] ==
            Some(Node(items[i].key, items[i].value, if items[i].visited then 1 else 0,
                      Newer(order, i), Older(order, i)))
    ensures Newer(order, i) == NIL <==> i + 1 == |order|
  {
    assert NodeAt(nodes, order, i, items[i]);
    if i + 1 < |order| { assert NodeAt(nodes, order, i + 1, items[i + 1]); }
  }

  lemma SweepTurn(flags: seq<bool>, h: nat)
    requires h < |flags| && flags[h]
    ensures Sweep(flags, h) == Sweep(flags[h := false], if h + 1 < |flags| then h + 1 else 0)
    ensures Count(flags[h := false]) < Count(flags)
  {
    CountClears(flags, h);
  }

  lemma SweepEnds(flags: seq<bool>, h: nat)
    requires h < |flags| && !flags[h]
    ensures Sweep(flags, h) == (h, flags)
  {
  }
}

/**
 How many shards a cache gets, how its capacity is split over them, and which shard a
 hash is routed to.
 */
module Sharding {
  import opened Bits
  import opened Division
  import opened Tags

  // ---- powers of two ----

  function Pow2(k: nat): (r: nat)
    ensures r >= 1
  {
    if k == 0 then 1 else 2 * Pow2(k - 1)
  }

  ghost predicate IsPow2(n: nat) { exists k: nat :: n == Pow2(k) }

  function CeilDiv(a: nat, b: nat): nat
    requires 0 < b
  {
    (a + b - 1) / b
  }

  /** The first power of two from `p` on that reaches `n`. */
  function Reach(p: nat, n: nat): (r: nat)
    requires 0 < p
    ensures p <= r && n <= r && (r == p || r < 2 * n)
    decreases n - p
  {
    if p >= n then p else Reach(2 * p, n)
  }

  /** The smallest power of two that is at least `n`. */
  function NextPow2(n: nat): nat { Reach(1, n) }

  lemma {:induction false} ReachIsPow2(k: nat, n: nat)
    ensures IsPow2(Reach(Pow2(k), n))
    decreases n - Pow2(k)
  {
    if Pow2(k) < n {
      assert Pow2(k + 1) == 2 * Pow2(k);
      ReachIsPow2(k + 1, n);
    }
  }

  lemma {:induction false} ReachIsLeast(p: nat, n: nat, k: nat, j: nat)
    requires p == Pow2(j) && j <= k && n <= Pow2(k)
    ensures Reach(p, n) <= Pow2(k)
    decreases k - j
  {
    Pow2Grows(j, k);
    if p < n {
      assert j < k;
      assert Pow2(j + 1) == 2 * p;
      ReachIsLeast(2 * p, n, k, j + 1);
    }
  }

  lemma {:induction false} Pow2Grows(j: nat, k: nat)
    requires j <= k
    ensures Pow2(j) <= Pow2(k)
    ensures j < k ==> 2 * Pow2(j) <= Pow2(k)
  {
    if j < k { Pow2Grows(j, k - 1); }
  }

  /** `NextPow2` is the least power of two at or above its argument, and nothing else is. */
  lemma NextPow2IsLeast(n: nat)
    ensures IsPow2(NextPow2(n)) && n <= NextPow2(n)
    ensures forall m: nat :: IsPow2(m) && n <= m ==> NextPow2(n) <= m
  {
    assert Pow2(0) == 1;
    ReachIsPow2(0, n);
    forall m: nat | IsPow2(m) && n <= m ensures NextPow2(n) <= m {
      var k: nat :| m == Pow2(k);
      ReachIsLeast(1, n, k, 0);
    }
  }

  lemma NextPow2Monotone(m: nat, n: nat)
    requires m <= n
    ensures NextPow2(m) <= NextPow2(n)
  {
    NextPow2IsLeast(m);
    NextPow2IsLeast(n);
  }

  // ---- the number of shards ----

  const MIN_PER_SHARD: nat := 4

  function Min(a: nat, b: nat): nat { if a < b then a else b }

  function Max(a: nat, b: nat): nat { if a < b then b else a }

  /** The concurrent cache's choice: about eight entries a shard, clamped at both ends. */
  function AutoShard(capacity: nat): nat {
    var target := Max(NextPow2(CeilDiv(capacity, 8)), 1);
    var maxShards := Max(NextPow2(CeilDiv(capacity, MIN_PER_SHARD)), 1);
    var minShards := Max(NextPow2(CeilDiv(capacity, MAX_PER_SHARD)), 1);
    Max(Min(target, maxShards), minShards)
  }

  /** The sequential cache's choice: as few shards as 64 entries a shard allow. */
  function FewShards(capacity: nat): nat { NextPow2(Max(CeilDiv(capacity, MAX_PER_SHARD), 1)) }

  /** The clamps never change the result. */
  lemma AutoShardIsTarget(capacity: nat)
    ensures AutoShard(capacity) == NextPow2(CeilDiv(capacity, 8))
  {
    assert CeilDiv(capacity, 64) <= CeilDiv(capacity, 8) <= CeilDiv(capacity, 4);
    NextPow2Monotone(CeilDiv(capacity, 64), CeilDiv(capacity, 8));
    NextPow2Monotone(CeilDiv(capacity, 8), CeilDiv(capacity, 4));
  }

  // ---- the split ----

  /** Capacity of shard `i`: the remainder goes to the first shards, one each. */
  function ShareOf(capacity: nat, shards: nat, i: nat): nat
    requires 0 < shards
  {
    capacity / shards + if i < capacity % shards then 1 else 0
  }

  /** The capacities of the first `n` shards together. */
  function Shares(capacity: nat, shards: nat, n: nat): nat
    requires 0 < shards
  {
    if n == 0 then 0 else Shares(capacity, shards, n - 1) + ShareOf(capacity, shards, n - 1)
  }

  lemma {:induction false} SharesSoFar(capacity: nat, shards: nat, n: nat)
    requires 0 < shards
    ensures Shares(capacity, shards, n) == n * (capacity / shards) + Min(n, capacity % shards)
  {
    if n > 0 {
      SharesSoFar(capacity, shards, n - 1);
      assert n * (capacity / shards) == (n - 1) * (capacity / shards) + capacity / shards;
    }
  }

  /** Nothing is lost in the split. */
  lemma SharesAddUp(capacity: nat, shards: nat)
    requires 0 < shards
    ensures Shares(capacity, shards, shards) == capacity
  {
    SharesSoFar(capacity, shards, shards);
  }

  /** No shard gets more than an earlier one, nor two less than any other. */
  lemma SharesFair(capacity: nat, shards: nat, i: nat, j: nat)
    requires 0 < shards && i <= j
    ensures ShareOf(capacity, shards, j) <= ShareOf(capacity, shards, i) <= ShareOf(capacity, shards, j) + 1
  {
  }

  function Total(caps: seq<nat>): nat {
    if caps == [] then 0 else Total(caps[..|caps| - 1]) + caps[|caps| - 1]
  }

  lemma {:induction false} TotalOfShares(capacity: nat, shards: nat, caps: seq<nat>)
    requires 0 < shards && forall i | 0 <= i < |caps| :: caps[i] == ShareOf(capacity, shards, i)
    ensures Total(caps) == Shares(capacity, shards, |caps|)
  {
    if caps != [] { TotalOfShares(capacity, shards, caps[..|caps| - 1]); }
  }

  lemma TimesMonotone(a: nat, b: nat, c: nat)
    requires b <= c
    ensures a * b <= a * c
  {
    assert a * (c - b) >= 0;
  }

  lemma QuotientAtLeast(capacity: nat, shards: nat, low: nat)
    requires 0 < shards && low * shards <= capacity
    ensures low <= capacity / shards
  {
    var q := capacity / shards;
    assert (low - q) * shards == low * shards - q * shards;
    Multiple(low - q, shards);
  }

  lemma QuotientAtMost(capacity: nat, shards: nat, high: nat)
    requires 0 < shards && capacity <= high * shards
    ensures capacity / shards <= high && (capacity % shards > 0 ==> capacity / shards < high)
  {
    var q := capacity / shards;
    assert (q - high) * shards == q * shards - high * shards;
    Multiple(q - high, shards);
  }

  lemma ShareBounds(capacity: nat, shards: nat, low: nat, high: nat)
    requires 0 < shards && low * shards <= capacity <= high * shards
    ensures forall i | 0 <= i < shards :: low <= ShareOf(capacity, shards, i) <= high
  {
    QuotientAtLeast(capacity, shards, low);
    QuotientAtMost(capacity, shards, high);
  }

  lemma Regroup(a: nat, b: nat)
    ensures a * (2 * b) == 2 * a * b
  {
  }

  /** With `unit` entries a shard aimed at, the shards are at least half full. */
  lemma TargetBounds(capacity: nat, half: nat)
    requires 0 < capacity && 0 < half
    ensures var n := NextPow2(CeilDiv(capacity, 2 * half));
      1 <= n <= capacity && capacity <= 2 * half * n && (capacity > 2 * half ==> half * n <= capacity)
  {
    var unit := 2 * half;
    var c := CeilDiv(capacity, unit);
    var n := NextPow2(c);
    CeilDivBounds(capacity, unit);
    TimesMonotone(unit, c, n);
    if n > 1 {
      NextPow2Even(c);
      TimesMonotone(half, n, 2 * (c - 1));
      assert half * (2 * (c - 1)) == unit * (c - 1) by { Regroup(half, c - 1); }
      TimesMonotone(n, 1, half);
    }
  }

  lemma CeilDivBounds(a: nat, b: nat)
    requires 0 < a && 0 < b
    ensures var c := CeilDiv(a, b); 1 <= c && b * (c - 1) < a <= b * c
    ensures a > b ==> CeilDiv(a, b) > 1
  {
    var x := a + b - 1;
    assert x == (x / b) * b + x % b;
    var c := x / b;
    assert c * b <= x < (c + 1) * b;
    if c <= 1 { assert c * b <= b; }
  }

  lemma NextPow2Even(n: nat)
    ensures NextPow2(n) == 1 || NextPow2(n) % 2 == 0
  {
    NextPow2IsLeast(n);
    var k: nat :| NextPow2(n) == Pow2(k);
  }

  /** The sequential cache takes the fewest shards, of the powers of two, that fit. */
  lemma FewShardsIsLeast(capacity: nat, m: nat)
    requires 0 < capacity && IsPow2(m) && 0 < m && CeilDiv(capacity, m) <= MAX_PER_SHARD
    ensures FewShards(capacity) <= m && CeilDiv(capacity, FewShards(capacity)) <= MAX_PER_SHARD
  {
    CeilDivBounds(capacity, m);
    TimesMonotone(m, CeilDiv(capacity, m), 64);
    CeilDivLeast(capacity, 64, m);
    NextPow2IsLeast(CeilDiv(capacity, 64));
    TargetBounds(capacity, 32);
    CeilDivBounds(capacity, 64);
    CeilDivLeast(capacity, FewShards(capacity), 64);
  }

  lemma CeilDivLeast(a: nat, b: nat, m: nat)
    requires 0 < a && 0 < b && a <= b * m
    ensures CeilDiv(a, b) <= m
  {
    CeilDivBounds(a, b);
    var c := CeilDiv(a, b);
    Multiple(c - 1 - m, b);
    assert (c - 1 - m) * b == b * (c - 1) - b * m;
    TimesCancel(b, c - 1, m);
  }

  lemma TimesCancel(a: nat, b: nat, c: nat)
    requires a * b < a * c
    ensures b < c
  {
    if c <= b { TimesMonotone(a, c, b); }
  }

  /** What a constructor asserts of its shard count, and each shard of its capacity. */
  ghost predicate Accepts(capacity: nat, shards: nat) {
    && 0 < shards <= capacity && IsPow2(shards)
    && forall i | 0 <= i < shards :: 1 <= ShareOf(capacity, shards, i) <= MAX_PER_SHARD
  }

  /**
   For every capacity the concurrent cache's choice passes every assertion, the split
   adds up, and above eight entries every shard gets four to eight.
   */
  lemma AutoShardWorks(capacity: nat)
    requires 0 < capacity
    ensures var n := AutoShard(capacity);
      && Accepts(capacity, n) && Shares(capacity, n, n) == capacity
      && forall i | 0 <= i < n ::
        (if capacity > 8 then 4 else 1) <= ShareOf(capacity, n, i) <= 8
  {
    AutoShardIsTarget(capacity);
    var n := AutoShard(capacity);
    TargetBounds(capacity, 4);
    NextPow2IsLeast(CeilDiv(capacity, 8));
    SharesAddUp(capacity, n);
    ShareBounds(capacity, n, if capacity > 8 then 4 else 1, 8);
  }

  /** The same for the sequential cache: above 64 entries every shard gets 32 to 64. */
  lemma FewShardsWorks(capacity: nat)
    requires 0 < capacity
    ensures var n := FewShards(capacity);
      && Accepts(capacity, n) && Shares(capacity, n, n) == capacity
      && (capacity <= 64 <==> n == 1)
      && forall i | 0 <= i < n ::
        (if capacity > 64 then 32 else 1) <= ShareOf(capacity, n, i) <= 64
  {
    var n := FewShards(capacity);
    CeilDivBounds(capacity, 64);
    TargetBounds(capacity, 32);
    NextPow2IsLeast(CeilDiv(capacity, 64));
    SharesAddUp(capacity, n);
    ShareBounds(capacity, n, if capacity > 64 then 32 else 1, 64);
  }

  // ---- routing ----

  /** The number in the low `n` bits of a word. */
  function LowBits(w: bv64, n: nat): (r: nat)
    ensures r < Pow2(n)
  {
    if n == 0 then 0 else 2 * LowBits(Half(w), n - 1) + if Odd(w) then 1 else 0
  }

  /** A word as a number. */
  function Value(w: bv64): nat { LowBits(w, 64) }

  /** The shard of a hash: a single AND with the mask. */
  function RouteOf(hash: bv64, mask: bv64): nat { Value(And(hash, mask)) }

  lemma {:induction false} LowBitsAgree(a: bv64, b: bv64, n: nat, k: nat)
    requires k <= n
    requires forall i: nat | i < k :: Bit(a, i) == Bit(b, i)
    requires forall i: nat | k <= i < n :: !Bit(a, i)
    ensures LowBits(a, n) == LowBits(b, k)
  {
    if n > 0 {
      forall i: nat | i < n - 1 ensures Bit(Half(a), i) == Bit(a, i + 1) && Bit(Half(b), i) == Bit(b, i + 1) {}
      assert Bit(a, 0) == Odd(a) && Bit(b, 0) == Odd(b);
      if k > 0 {
        LowBitsAgree(Half(a), Half(b), n - 1, k - 1);
      } else {
        LowBitsAgree(Half(a), b, n - 1, 0);
      }
    }
  }

  lemma {:induction false} LowBitsMod(w: bv64, n: nat, k: nat)
    requires k <= n
    ensures LowBits(w, n) % Pow2(k) == LowBits(w, k)
  {
    if k > 0 {
      LowBitsMod(Half(w), n - 1, k - 1);
      DoubleMod(LowBits(Half(w), n - 1), Pow2(k - 1), if Odd(w) then 1 else 0);
    }
  }

  lemma DoubleMod(x: nat, m: nat, bit: nat)
    requires 0 < m && bit < 2
    ensures (2 * x + bit) % (2 * m) == 2 * (x % m) + bit
  {
    var q, r := x / m, x % m;
    assert 2 * x + bit == q * (2 * m) + (2 * r + bit);
    Remainder(q, 2 * m, 2 * r + bit);
  }

  /** The mask `shards - 1` as a word. */
  function MaskFor(shards: nat): bv64 { Below(Log2(shards)) }

  function Log2(n: nat): nat { if n <= 1 then 0 else 1 + Log2(n / 2) }

  lemma {:induction false} Log2OfPow2(k: nat)
    ensures Log2(Pow2(k)) == k
  {
    if k > 0 { Log2OfPow2(k - 1); }
  }

  lemma {:induction false} MaskIsOneLess(k: nat)
    requires k <= 64
    ensures Value(MaskFor(Pow2(k))) == Pow2(k) - 1
  {
    hide Below, Bit, Half;
    Log2OfPow2(k);
    forall i: nat | i < 64 ensures Bit(Below(k), i) == (i < k) { BitOfBelow(k, i); }
    AllOnes(Below(k), 64, k);
  }

  lemma {:induction false} AllOnes(w: bv64, n: nat, k: nat)
    requires k <= n && forall i: nat | i < n :: Bit(w, i) == (i < k)
    ensures LowBits(w, n) == Pow2(k) - 1
  {
    if n > 0 {
      forall i: nat | i < n - 1 ensures Bit(Half(w), i) == (i < (if k > 0 then k - 1 else 0)) {
        assert Bit(w, i + 1) == Bit(Half(w), i);
      }
      assert Bit(w, 0) == Odd(w);
      AllOnes(Half(w), n - 1, if k > 0 then k - 1 else 0);
    }
  }

  /** With 2^k shards the AND is the hash modulo their number, so always in range. */
  lemma RouteIsModulo(hash: bv64, k: nat)
    requires k <= 64
    ensures RouteOf(hash, Below(k)) == Value(hash) % Pow2(k) < Pow2(k)
  {
    hide Below, And, Bit;
    var w := And(hash, Below(k));
    forall i: nat | i < 64 ensures Bit(w, i) == (Bit(hash, i) && i < k) {
      BitOfAnd(hash, Below(k), i);
      BitOfBelow(k, i);
    }
    LowBitsAgree(w, hash, 64, k);
    LowBitsMod(hash, 64, k);
  }
}

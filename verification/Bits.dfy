/**
 64-bit words read bit by bit: the bit tricks of the shard (masks, trailing-zero
 counts, lowest-bit clearing) and what each of them does to every bit.

 Bits are read by halving the word, so that every law below is an induction over
 the position. Each step needs one fact about words (module part "words alone"),
 which is proved for itself; the inductions then hide the word operations.
 */
module Bits {

  const ALL: bv64 := 0xFFFF_FFFF_FFFF_FFFF

  predicate Odd(w: bv64) { w & 1 == 1 }

  function Half(w: bv64): bv64 { w >> 1 }

  /** `w << 1`, the top bit falling off. */
  function Double(w: bv64): bv64 { w + w }

  function And(a: bv64, b: bv64): bv64 { a & b }

  function Or(a: bv64, b: bv64): bv64 { a | b }

  function Not(a: bv64): bv64 { !a }

  /** Whether bit `i` of `w` is set, that is `(w >> i) & 1 != 0`. */
  predicate Bit(w: bv64, i: nat)
    decreases i
  {
    if i == 0 then Odd(w) else Bit(Half(w), i - 1)
  }

  /** `1u64 << i`. */
  function Shl1(i: nat): bv64 {
    if i == 0 then 1 else Double(Shl1(i - 1))
  }

  /** The mask `(1u64 << n) - 1` of the bits below `n`; all ones for `n == 64`. */
  function Below(n: nat): bv64 { Shl1(n) - 1 }

  /** `w.trailing_zeros()` of a non-zero word. */
  function Tz(w: bv64): nat
    requires w != 0
    decreases w
  {
    if Odd(w) then 0 else 1 + Tz(Half(w))
  }

  /** Clears the lowest set bit: the `BLSR` instruction, and `w &= w - 1`. */
  function Blsr(w: bv64): bv64 { w & (w - 1) }

  /** The positions of the set bits. */
  ghost function Ones(w: bv64): set<nat> {
    set i: nat | i < 64 && Bit(w, i)
  }

  /** All ones shifted down by `d`: exactly the low `64 - d` bits are set. */
  function DownMask(d: nat): bv64 {
    if d == 0 then ALL else Half(DownMask(d - 1))
  }

  predicate Block(m: bv64) { m & (m + 1) == 0 }

  predicate AtMost(w: bv64, m: bv64) { w <= m }

  // ---- words alone: one halving step ----

  lemma HalfAnd(a: bv64, b: bv64)
    ensures Half(And(a, b)) == And(Half(a), Half(b))
    ensures Odd(And(a, b)) <==> Odd(a) && Odd(b)
  {
  }

  lemma HalfOr(a: bv64, b: bv64)
    ensures Half(Or(a, b)) == Or(Half(a), Half(b))
    ensures Odd(Or(a, b)) <==> Odd(a) || Odd(b)
  {
  }

  lemma HalfDouble(a: bv64)
    ensures Half(Double(a)) == And(a, Half(ALL))
    ensures !Odd(Double(a))
  {
  }

  lemma OddBlsr(w: bv64)
    requires Odd(w)
    ensures w != 0 && Half(Blsr(w)) == Half(w) && !Odd(Blsr(w))
  {
  }

  lemma EvenHalf(w: bv64)
    requires w != 0 && !Odd(w)
    ensures Half(w) != 0 && Half(w) < w
  {
  }

  lemma BlsrIsAnd(w: bv64)
    ensures Blsr(w) == And(w, w - 1)
  {
  }

  /** `w - 1` borrows from the lowest bit of an even word. */
  lemma HalfOfPrevious(w: bv64)
    requires w != 0 && !Odd(w)
    ensures Half(w - 1) == Half(w) - 1
  {
    EvenIsDouble(w);
    DoubleLessOne(Half(w));
    HalfOfOdd(Half(w) - 1);
    hide Half, Double;
  }

  lemma EvenBlsr(w: bv64)
    requires w != 0 && !Odd(w)
    ensures Half(Blsr(w)) == Blsr(Half(w)) && !Odd(Blsr(w))
  {
    hide Odd, Half, And, Blsr;
    BlsrIsAnd(w);
    BlsrIsAnd(Half(w));
    HalfAnd(w, w - 1);
    HalfOfPrevious(w);
  }

  lemma EvenIsDouble(w: bv64)
    requires w != 0 && !Odd(w)
    ensures w == Double(Half(w)) && Half(w) - 1 <= Half(ALL)
  {
  }

  lemma DoubleLessOne(x: bv64)
    ensures Double(x) - 1 == Double(x - 1) + 1
  {
  }

  lemma HalfOfOdd(y: bv64)
    requires y <= Half(ALL)
    ensures Half(Double(y) + 1) == y
  {
  }

  lemma OrOne(y: bv64)
    ensures Double(y) + 1 == Or(Double(y), 1)
  {
  }

  lemma HalfZero()
    ensures Half(0) == 0 && !Odd(0) && Half(1) == 0 && Odd(1)
  {
  }

  lemma BlockOfOnes(m: bv64)
    requires Block(m)
    ensures Block(Half(m))
    ensures m != 0 ==> Odd(m)
  {
  }

  lemma HalfBound(w: bv64, m: bv64)
    requires AtMost(w, m)
    ensures AtMost(Half(w), Half(m))
    ensures m == 0 ==> w == 0
  {
  }

  lemma BelowStep(n: nat)
    requires n > 0
    ensures Below(n) == Or(Double(Below(n - 1)), 1)
  {
    DoubleLessOne(Shl1(n - 1));
    OrOne(Shl1(n - 1) - 1);
  }

  lemma NotIsComplement(a: bv64)
    ensures Or(a, Not(a)) == ALL && And(a, Not(a)) == 0
  {
  }

  /** The block of ones has 64 of them: the values on either side of the last. */
  lemma DownMaskAnchors()
    ensures DownMask(63) == 1 && DownMask(64) == 0
  {
    assert DownMask(8) == ALL >> 8;
    assert DownMask(16) == ALL >> 16;
    assert DownMask(24) == ALL >> 24;
    assert DownMask(32) == ALL >> 32;
    assert DownMask(40) == ALL >> 40;
    assert DownMask(48) == ALL >> 48;
    assert DownMask(56) == ALL >> 56;
  }

  // ---- bitwise operations, bit by bit ----

  lemma {:induction false} BitZero(i: nat)
    ensures !Bit(0, i)
  {
    hide Odd, Half;
    HalfZero();
    if i > 0 { BitZero(i - 1); }
  }

  lemma {:induction false} BitOfAnd(a: bv64, b: bv64, i: nat)
    ensures Bit(And(a, b), i) <==> Bit(a, i) && Bit(b, i)
    decreases i
  {
    hide Odd, Half, And;
    HalfAnd(a, b);
    if i > 0 { BitOfAnd(Half(a), Half(b), i - 1); }
  }

  lemma {:induction false} BitOfOr(a: bv64, b: bv64, i: nat)
    ensures Bit(Or(a, b), i) <==> Bit(a, i) || Bit(b, i)
    decreases i
  {
    hide Odd, Half, Or;
    HalfOr(a, b);
    if i > 0 { BitOfOr(Half(a), Half(b), i - 1); }
  }

  /** `DownMask(d)` is a block of low ones. */
  lemma {:induction false} DownMaskBlock(d: nat)
    ensures Block(DownMask(d))
  {
    if d > 0 {
      hide Odd, Half, Block;
      DownMaskBlock(d - 1);
      BlockOfOnes(DownMask(d - 1));
    }
  }

  lemma {:induction false} DownMaskStaysZero(d: nat, e: nat)
    requires d <= e && DownMask(d) == 0
    ensures DownMask(e) == 0
    decreases e - d
  {
    hide Odd, Half;
    HalfZero();
    if d < e { DownMaskStaysZero(d + 1, e); }
  }

  lemma {:induction false} BitDownMask(d: nat, i: nat)
    requires d + i < 64
    ensures Bit(DownMask(d), i)
    decreases i
  {
    hide Odd, Half, Block;
    if i == 0 {
      DownMaskBlock(d);
      DownMaskAnchors();
      if DownMask(d) == 0 { DownMaskStaysZero(d, 63); }
      BlockOfOnes(DownMask(d));
    } else {
      BitDownMask(d + 1, i - 1);
    }
  }

  /** A word within the low `64 - d` bits has no bit at or above `64 - d`. */
  lemma {:induction false} BitBound(w: bv64, d: nat, i: nat)
    requires d <= 64 && AtMost(w, DownMask(d)) && Bit(w, i)
    ensures i < 64 - d
    decreases i
  {
    hide Odd, Half, AtMost;
    HalfBound(w, DownMask(d));
    if d == 64 {
      DownMaskAnchors();
      BitZero(i);
    } else if i > 0 {
      BitBound(Half(w), d + 1, i - 1);
    }
  }

  lemma BitBelow64(w: bv64, i: nat)
    requires Bit(w, i)
    ensures i < 64
  {
    assert DownMask(0) == ALL;
    BitBound(w, 0, i);
  }

  lemma BitOfNot(a: bv64, i: nat)
    requires i < 64
    ensures Bit(Not(a), i) <==> !Bit(a, i)
  {
    hide Odd, Half, And, Or, Not;
    assert DownMask(0) == ALL;
    BitDownMask(0, i);
    BitZero(i);
    BitOfOr(a, Not(a), i);
    BitOfAnd(a, Not(a), i);
    NotIsComplement(a);
  }

  lemma BitOfDouble(a: bv64, i: nat)
    requires i < 64
    ensures Bit(Double(a), i) <==> i > 0 && Bit(a, i - 1)
  {
    hide Odd, Half, And, Double;
    HalfDouble(a);
    if i > 0 {
      BitOfAnd(a, Half(ALL), i - 1);
      assert DownMask(1) == Half(DownMask(0)) == Half(ALL);
      BitDownMask(1, i - 1);
    }
  }

  lemma {:induction false} BitOfShl1(i: nat, j: nat)
    requires i < 64 && j < 64
    ensures Bit(Shl1(i), j) <==> i == j
  {
    hide Odd, Half, Double;
    HalfZero();
    if i == 0 {
      if j > 0 { BitZero(j - 1); }
    } else {
      BitOfDouble(Shl1(i - 1), j);
      if j > 0 { BitOfShl1(i - 1, j - 1); }
    }
  }

  lemma {:induction false} BitOfBelow(n: nat, j: nat)
    requires n <= 64 && j < 64
    ensures Bit(Below(n), j) <==> j < n
  {
    if n == 0 {
      BitZero(j);
    } else {
      hide Odd, Half, Double, Or, Below;
      BelowStep(n);
      BitOfOr(Double(Below(n - 1)), 1, j);
      BitOfDouble(Below(n - 1), j);
      BitOfShl1(0, j);
      if j > 0 { BitOfBelow(n - 1, j - 1); }
    }
  }

  // ---- lowest set bit ----

  lemma {:induction false} TzIsSet(w: bv64)
    requires w != 0
    ensures Bit(w, Tz(w))
    decreases Tz(w)
  {
    if !Odd(w) {
      EvenHalf(w);
      hide Odd, Half;
      TzIsSet(Half(w));
    }
  }

  lemma {:induction false} BelowTz(w: bv64, j: nat)
    requires w != 0 && j < Tz(w)
    ensures !Bit(w, j)
    decreases j
  {
    hide Odd, Half;
    EvenHalf(w);
    if j > 0 { BelowTz(Half(w), j - 1); }
  }

  lemma TzIsLowest(w: bv64)
    requires w != 0
    ensures Bit(w, Tz(w)) && Tz(w) < 64
    ensures forall j: nat | j < Tz(w) :: !Bit(w, j)
  {
    TzIsSet(w);
    BitBelow64(w, Tz(w));
    forall j: nat | j < Tz(w) ensures !Bit(w, j) { BelowTz(w, j); }
  }

  lemma {:induction false} BitOfBlsr(w: bv64, j: nat)
    requires w != 0
    ensures Bit(Blsr(w), j) <==> Bit(w, j) && j != Tz(w)
    decreases j
  {
    hide Odd, Half, Blsr;
    if Odd(w) {
      OddBlsr(w);
    } else {
      EvenHalf(w);
      EvenBlsr(w);
      if j > 0 { BitOfBlsr(Half(w), j - 1); }
    }
  }

  lemma OnesBlsr(w: bv64)
    requires w != 0
    ensures Tz(w) in Ones(w) && Ones(Blsr(w)) == Ones(w) - {Tz(w)}
    ensures forall i | i in Ones(w) :: Tz(w) <= i
  {
    hide Odd, Half, Blsr;
    TzIsLowest(w);
    forall j: nat ensures Bit(Blsr(w), j) <==> Bit(w, j) && j != Tz(w) { BitOfBlsr(w, j); }
  }
}

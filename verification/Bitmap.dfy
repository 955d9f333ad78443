/** A 64-bit word as a sequence of flags: searching and clearing a range with masks. */
module Bitmap {
  import opened Bits
  import opened Sieve
  import opened Counting

  /** The word holds exactly `flags`, and nothing above them. */
  ghost predicate FlagBits(w: bv64, flags: seq<bool>) {
    forall j: nat | j < 64 :: Bit(w, j) <==> j < |flags| && flags[j]
  }

  /** The mask of the positions `lo..hi`. */
  ghost predicate MaskIs(mask: bv64, lo: nat, hi: nat) {
    forall j: nat | j < 64 :: Bit(mask, j) <==> lo <= j < hi
  }

  lemma BelowMask(n: nat)
    requires n <= 64
    ensures MaskIs(Below(n), 0, n)
  {
    hide Below;
    forall j: nat | j < 64 ensures Bit(Below(n), j) <==> j < n { BitOfBelow(n, j); }
  }

  lemma AllMask()
    ensures MaskIs(ALL, 0, 64)
  {
    forall j: nat | j < 64 ensures Bit(ALL, j) {
      BitDownMask(0, j);
    }
  }

  /** `mask & !below` cuts a mask down to the positions from `mid` on. */
  lemma CutMask(mask: bv64, below: bv64, mid: nat, hi: nat)
    requires MaskIs(mask, 0, hi) && MaskIs(below, 0, mid)
    ensures MaskIs(And(mask, Not(below)), mid, hi)
  {
    hide And, Not;
    forall j: nat | j < 64 ensures Bit(And(mask, Not(below)), j) <==> mid <= j < hi {
      BitOfAnd(mask, Not(below), j);
      BitOfNot(below, j);
    }
  }

  /** The lowest set bit of `!w & mask` is the first unset flag in the range. */
  lemma SearchRange(w: bv64, flags: seq<bool>, mask: bv64, lo: nat, hi: nat)
    requires FlagBits(w, flags) && MaskIs(mask, lo, hi) && lo <= hi <= |flags| <= 64
    ensures var s := And(Not(w), mask); var v := FirstUnset(flags, lo, hi);
      && (s == 0 <==> v == hi)
      && (s != 0 ==> Tz(s) == v)
  {
    hide And, Not;
    var s := And(Not(w), mask);
    forall j: nat | j < 64 ensures Bit(s, j) <==> lo <= j < hi && !flags[j] {
      BitOfAnd(Not(w), mask, j);
      BitOfNot(w, j);
    }
    var v := FirstUnset(flags, lo, hi);
    if s == 0 {
      forall j: nat | j < 64 ensures !Bit(s, j) { BitZero(j); }
    } else {
      TzIsLowest(s);
      FirstUnsetIs(flags, lo, hi, Tz(s));
    }
  }

  /** `w & !mask` clears the range. */
  lemma ClearRange(w: bv64, flags: seq<bool>, mask: bv64, lo: nat, hi: nat)
    requires FlagBits(w, flags) && MaskIs(mask, lo, hi) && |flags| <= 64
    ensures FlagBits(And(w, Not(mask)), Clear(flags, lo, hi))
  {
    hide And, Not;
    forall j: nat | j < 64
      ensures Bit(And(w, Not(mask)), j) <==> j < |flags| && Clear(flags, lo, hi)[j]
    {
      BitOfAnd(w, Not(mask), j);
      BitOfNot(mask, j);
    }
  }

  /** Bits at and above `pos` move down by one; the bit at `pos` is dropped. */
  function ShiftDown(w: bv64, pos: nat): bv64 {
    Or(And(w, Below(pos)), And(Half(w), Not(Below(pos))))
  }

  /** Deleting a position shifts the flags above it down, as the tags shift. */
  lemma ShiftFlags(w: bv64, flags: seq<bool>, pos: nat)
    requires FlagBits(w, flags) && pos < |flags| <= 64
    ensures FlagBits(ShiftDown(w, pos), Without(flags, pos))
  {
    hide And, Or, Not, Half, Below;
    forall j: nat | j < 64
      ensures Bit(ShiftDown(w, pos), j) <==> j < |flags| - 1 && Without(flags, pos)[j]
    {
      BitOfOr(And(w, Below(pos)), And(Half(w), Not(Below(pos))), j);
      BitOfAnd(w, Below(pos), j);
      BitOfAnd(Half(w), Not(Below(pos)), j);
      BitOfNot(Below(pos), j);
      BitOfBelow(pos, j);
      assert Bit(Half(w), j) == Bit(w, j + 1);
      if Bit(w, j + 1) { BitBelow64(w, j + 1); }
    }
  }

  lemma SetFlag(w: bv64, flags: seq<bool>, i: nat)
    requires FlagBits(w, flags) && i < |flags| <= 64
    ensures FlagBits(Or(w, Shl1(i)), flags[i := true])
  {
    hide Or;
    forall j: nat | j < 64 ensures Bit(Or(w, Shl1(i)), j) <==> Bit(w, j) || j == i {
      BitOfOr(w, Shl1(i), j);
      BitOfShl1(i, j);
    }
  }

  lemma NoFlags()
    ensures FlagBits(0, [])
  {
    forall j: nat | j < 64 ensures !Bit(0, j) { BitZero(j); }
  }

  /** A position past the flags is already clear. */
  lemma AppendFlag(w: bv64, flags: seq<bool>)
    requires FlagBits(w, flags)
    ensures FlagBits(w, flags + [false])
  {
  }

  /**
   The victim search on the word: the lowest unset bit from the hand up, else from 0 up
   to the hand, else the hand itself; every bit passed over is cleared.
   */
  method SearchVictim(visited: bv64, len: nat, hand: nat, ghost flags: seq<bool>)
    returns (victim: nat, visited': bv64)
    requires hand < len == |flags| <= 64 && FlagBits(visited, flags)
    ensures victim == Sweep(flags, hand).0
    ensures FlagBits(visited', Sweep(flags, hand).1)
  {
    hide And, Not, Below, FlagBits, MaskIs, Tz, Sweep;
    SweepIsTwoPass(flags, hand);
    var liveMask := if len >= 64 then ALL else Below(len);
    var belowHand := Below(hand);
    var aboveHand := And(liveMask, Not(belowHand));
    AllMask();
    BelowMask(len);
    BelowMask(hand);
    CutMask(liveMask, belowHand, hand, len);

    var highSearch := And(Not(visited), aboveHand);
    SearchRange(visited, flags, aboveHand, hand, len);
    if highSearch != 0 {
      victim := Tz(highSearch);
      var walked := And(Below(victim), Not(belowHand));
      BelowMask(victim);
      CutMask(Below(victim), belowHand, hand, victim);
      ClearRange(visited, flags, walked, hand, victim);
      visited' := And(visited, Not(walked));
      return;
    }
    ClearRange(visited, flags, aboveHand, hand, len);
    visited' := And(visited, Not(aboveHand));
    ghost var upper := Clear(flags, hand, len);

    var lowSearch := And(Not(visited'), belowHand);
    SearchRange(visited', upper, belowHand, 0, hand);
    FirstUnsetIs(upper, 0, hand, FirstUnset(flags, 0, hand));
    if lowSearch != 0 {
      victim := Tz(lowSearch);
      var walked := Below(victim);
      BelowMask(victim);
      ClearRange(visited', upper, walked, 0, victim);
      visited' := And(visited', Not(walked));
      return;
    }
    ClearRange(visited', upper, belowHand, 0, hand);
    visited' := And(visited', Not(belowHand));
    assert Clear(upper, 0, hand) == Clear(flags, 0, len);
    victim := hand;
  }

  // ---- words as sets of ids ----

  lemma ZeroHasNoOnes()
    ensures Ones(0) == {}
  {
    forall i: nat | i < 64 ensures !Bit(0, i) { BitZero(i); }
  }

  lemma OnesOr(w: bv64, i: nat)
    requires i < 64
    ensures Ones(Or(w, Shl1(i))) == Ones(w) + {i}
  {
    hide Or;
    forall j: nat | j < 64 ensures Bit(Or(w, Shl1(i)), j) <==> Bit(w, j) || j == i {
      BitOfOr(w, Shl1(i), j);
      BitOfShl1(i, j);
    }
  }

  /** `occupied & !low` and `!occupied & low` are the two set differences. */
  lemma PairingWords(occupied: bv64, lowMask: bv64, n: nat, ids: set<nat>)
    requires n <= 64 && Ones(occupied) == ids
    requires lowMask == if n >= 64 then ALL else Below(n)
    ensures Ones(And(occupied, Not(lowMask))) == ids - UpTo(n)
    ensures Ones(And(Not(occupied), lowMask)) == UpTo(n) - ids
  {
    hide And, Not, Below;
    AllMask();
    BelowMask(n);
    forall j: nat | j < 64
      ensures Bit(And(occupied, Not(lowMask)), j) <==> Bit(occupied, j) && n <= j
      ensures Bit(And(Not(occupied), lowMask), j) <==> !Bit(occupied, j) && j < n
    {
      BitOfAnd(occupied, Not(lowMask), j);
      BitOfAnd(Not(occupied), lowMask, j);
      BitOfNot(lowMask, j);
      BitOfNot(occupied, j);
    }
    forall j | j in ids ensures j < 64 {}
  }
}

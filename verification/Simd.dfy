/**
 The vector scan as data: a comparison of 16 lanes becomes a mask with two bits per
 lane, and the loop reads the lowest bit, then clears two. The 32-bit mask is held in
 the low half of a 64-bit word.
 */
module Simd {
  import opened Bits

  /** `movemask_epi8` of a 16-bit lane comparison: bits `2k` and `2k + 1` for lane `k`. */
  function MoveMask(cmp: seq<bool>): bv64 {
    if cmp == [] then 0
    else Or(Double(Double(MoveMask(cmp[1..]))), if cmp[0] then 3 else 0)
  }

  /** The mask holds exactly the matching lanes from lane `c` on. */
  ghost predicate MaskFrom(mask: bv64, cmp: seq<bool>, c: nat) {
    forall j: nat | j < 64 :: Bit(mask, j) <==> c <= j / 2 < |cmp| && cmp[j / 2]
  }

  lemma BitsOfThree(j: nat)
    requires j < 64
    ensures Bit(3, j) <==> j < 2
  {
    assert Below(2) == 3;
    BitOfBelow(2, j);
  }

  lemma {:induction false} MoveMaskBits(cmp: seq<bool>)
    requires |cmp| <= 16
    ensures MaskFrom(MoveMask(cmp), cmp, 0)
  {
    hide Or, Double, Odd, Half;
    forall j: nat | j < 64 ensures Bit(MoveMask(cmp), j) <==> j / 2 < |cmp| && cmp[j / 2] {
      if cmp == [] {
        BitZero(j);
      } else {
        var m := MoveMask(cmp[1..]);
        MoveMaskBits(cmp[1..]);
        BitOfOr(Double(Double(m)), if cmp[0] then 3 else 0, j);
        BitOfDouble(Double(m), j);
        if j > 0 { BitOfDouble(m, j - 1); }
        BitsOfThree(j);
        BitZero(j);
        if j >= 2 {
          assert (j - 2) / 2 == j / 2 - 1;
          assert Bit(m, j - 2) <==> (j - 2) / 2 < |cmp[1..]| && cmp[1..][(j - 2) / 2];
        }
      }
    }
  }

  lemma NoLaneLeft(mask: bv64, cmp: seq<bool>, c: nat)
    requires MaskFrom(mask, cmp, c) && mask == 0 && |cmp| <= 16
    ensures forall k | c <= k < |cmp| :: !cmp[k]
  {
    hide Odd, Half;
    forall k | c <= k < |cmp| ensures !cmp[k] {
      BitZero(2 * k);
      assert (2 * k) / 2 == k;
      assert Bit(mask, 2 * k) <==> cmp[k];
    }
  }

  lemma PairedBits(mask: bv64, cmp: seq<bool>, c: nat, k: nat)
    requires MaskFrom(mask, cmp, c) && 2 * k + 1 < 64
    ensures Bit(mask, 2 * k) <==> Bit(mask, 2 * k + 1)
  {
    assert (2 * k) / 2 == k && (2 * k + 1) / 2 == k;
  }

  /** One turn of the loop: the lowest bit is the first matching lane, and two clears remove it. */
  lemma NextLane(mask: bv64, cmp: seq<bool>, c: nat) returns (k: nat)
    requires MaskFrom(mask, cmp, c) && mask != 0 && |cmp| <= 16
    ensures Tz(mask) == 2 * k && c <= k < |cmp| && cmp[k]
    ensures forall j | c <= j < k :: !cmp[j]
    ensures Blsr(mask) != 0
    ensures MaskFrom(Blsr(Blsr(mask)), cmp, k + 1)
  {
    hide Odd, Half, Blsr;
    TzIsLowest(mask);
    var t := Tz(mask);
    k := t / 2;
    PairedBits(mask, cmp, c, k);
    forall j | c <= j < k ensures !cmp[j] {
      assert (2 * j) / 2 == j;
      assert Bit(mask, 2 * j) <==> cmp[j];
    }
    SecondClear(mask, cmp, c, k);
  }

  lemma SecondClear(mask: bv64, cmp: seq<bool>, c: nat, k: nat)
    requires MaskFrom(mask, cmp, c) && mask != 0 && |cmp| <= 16
    requires Tz(mask) == 2 * k && c <= k < |cmp| && cmp[k]
    ensures Blsr(mask) != 0
    ensures MaskFrom(Blsr(Blsr(mask)), cmp, k + 1)
  {
    hide Odd, Half, Blsr;
    TzIsLowest(mask);
    var m1 := Blsr(mask);
    assert (2 * k + 1) / 2 == k;
    BitOfBlsr(mask, 2 * k + 1);
    assert Bit(m1, 2 * k + 1);
    if m1 == 0 { BitZero(2 * k + 1); }
    TzIsLowest(m1);
    forall j: nat | j < 64 ensures Bit(m1, j) <==> Bit(mask, j) && j != 2 * k { BitOfBlsr(mask, j); }
    forall j: nat | j < 2 * k + 1 ensures !Bit(m1, j) {
      if j < 2 * k { assert !Bit(mask, j); }
    }
    assert Tz(m1) == 2 * k + 1;
    forall j: nat | j < 64
      ensures Bit(Blsr(m1), j) <==> k + 1 <= j / 2 < |cmp| && cmp[j / 2]
    {
      BitOfBlsr(m1, j);
      if j < 2 * k { assert !Bit(mask, j); }
    }
  }

  /** Keeping two bits for each of the first `m` lanes: nonzero when one of them matched. */
  lemma KeepLanes(cmp: seq<bool>, m: nat)
    requires m <= |cmp| <= 16
    ensures And(MoveMask(cmp), Below(2 * m)) != 0 <==> exists k :: 0 <= k < m && cmp[k]
  {
    hide And, Odd, Half, MoveMask, Below;
    var w := And(MoveMask(cmp), Below(2 * m));
    MoveMaskBits(cmp);
    forall j: nat | j < 64 ensures Bit(w, j) <==> j < 2 * m && cmp[j / 2] {
      BitOfAnd(MoveMask(cmp), Below(2 * m), j);
      BitOfBelow(2 * m, j);
    }
    if w != 0 {
      TzIsLowest(w);
      assert cmp[Tz(w) / 2];
    } else {
      forall k | 0 <= k < m ensures !cmp[k] {
        BitZero(2 * k);
        assert (2 * k) / 2 == k;
        assert Bit(w, 2 * k) <==> cmp[k];
      }
    }
  }

  /** With all sixteen lanes kept nothing needs masking. */
  lemma AllLanes(cmp: seq<bool>)
    requires |cmp| == 16
    ensures MoveMask(cmp) != 0 <==> exists k :: 0 <= k < 16 && cmp[k]
  {
    hide Odd, Half, MoveMask;
    var w := MoveMask(cmp);
    MoveMaskBits(cmp);
    if w != 0 {
      TzIsLowest(w);
      assert cmp[Tz(w) / 2];
    } else {
      NoLaneLeft(w, cmp, 0);
    }
  }
}

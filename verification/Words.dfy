/** The visited array of the research shards: bits packed by position into 64-bit words. */
module Words {
  import opened Bits

  /** The array as one flag per position. */
  ghost function Vis(words: seq<bv64>): (v: seq<bool>)
    ensures |v| == 64 * |words|
  {
    seq(64 * |words|, p requires 0 <= p < 64 * |words| => Bit(words[p / 64], p % 64))
  }

  /** `visited[w].load() & b != 0`. */
  method TestBit(words: array<bv64>, p: nat) returns (b: bool)
    requires p < 64 * words.Length
    ensures b == Vis(words[..])[p]
  {
    b := Bit(words[p / 64], p % 64);
  }

  /** `visited[w].fetch_or(b)`. */
  method SetBit(words: array<bv64>, p: nat)
    requires p < 64 * words.Length
    modifies words
    ensures Vis(words[..]) == old(Vis(words[..]))[p := true]
  {
    hide Bit, Or;
    ghost var before := words[..];
    var w, b := p / 64, Shl1(p % 64);
    words[w] := Or(words[w], b);
    forall q | 0 <= q < 64 * words.Length ensures Vis(words[..])[q] == (q == p || Vis(before)[q]) {
      BitOfOr(before[w], b, q % 64);
      BitOfShl1(p % 64, q % 64);
    }
  }

  /** A reader's mark: unconditional in c10s, only when the bit is clear from c11s on. */
  method MarkBit(words: array<bv64>, p: nat, conditional: bool)
    requires p < 64 * words.Length
    modifies words
    ensures Vis(words[..]) == old(Vis(words[..]))[p := true]
  {
    hide Bit;
    var isSet := TestBit(words, p);
    if conditional && isSet { return; }
    SetBit(words, p);
  }

  /** `visited[w].fetch_and(!b)`. */
  method ClearBit(words: array<bv64>, p: nat)
    requires p < 64 * words.Length
    modifies words
    ensures Vis(words[..]) == old(Vis(words[..]))[p := false]
  {
    hide Bit, And, Not;
    ghost var before := words[..];
    var w, b := p / 64, Shl1(p % 64);
    words[w] := And(words[w], Not(b));
    forall q | 0 <= q < 64 * words.Length ensures Vis(words[..])[q] == (q != p && Vis(before)[q]) {
      BitOfAnd(before[w], Not(b), q % 64);
      BitOfNot(b, q % 64);
      BitOfShl1(p % 64, q % 64);
    }
  }
}

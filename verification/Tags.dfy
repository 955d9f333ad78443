/**
 The 16-bit tag: LIVE flag, a 6-bit arena id at `shift`, and the hash bits that fill
 the rest. The sharded cache and c10s/c11s give every remaining bit to the hash
 (9 bits); c13s/c14s keep bit 14 as a VERSION bit (8 hash bits).
 */
module Tags {

  const EMPTY: bv16 := 0
  const LIVE: bv16 := 0x8000
  const VERSION: bv16 := 0x4000

  /** Tags in one vector load. */
  const LANE: nat := 16

  /** What a 6-bit id can name. */
  const MAX_PER_SHARD: nat := 64

  /** `shift` is the binary logarithm of the arena stride. */
  datatype Layout = Layout(shift: bv16, versioned: bool)

  predicate ValidLayout(l: Layout) { l.shift <= 8 }

  function FieldMask(l: Layout): bv16 { if l.versioned then 0x3FFF else 0x7FFF }

  function IdMask(l: Layout): bv16
    requires ValidLayout(l)
  {
    0x3F << l.shift
  }

  function HashMask(l: Layout): bv16
    requires ValidLayout(l)
  {
    FieldMask(l) & !IdMask(l)
  }

  function ScanMask(l: Layout): bv16
    requires ValidLayout(l)
  {
    LIVE | HashMask(l)
  }

  /** The top hash bits a tag keeps: nine, or eight when there is a VERSION bit. */
  function HashBits(l: Layout, hash: bv64): bv16 {
    if l.versioned then (hash >> 56) as bv16 else (hash >> 55) as bv16
  }

  /** Spreads the kept hash bits around the id field and adds LIVE. */
  function Spread(l: Layout, h: bv16): bv16
    requires ValidLayout(l)
  {
    var lowMask := (1 << l.shift) - 1;
    LIVE | (h & lowMask) | ((h & !lowMask) << 6)
  }

  function Needle(l: Layout, hash: bv64): bv16
    requires ValidLayout(l)
  {
    Spread(l, HashBits(l, hash))
  }

  predicate Live(tag: bv16) { tag & LIVE != 0 }

  /** The id field of a tag, as a word. */
  function IdWord(l: Layout, tag: bv16): bv16
    requires ValidLayout(l)
  {
    (tag & IdMask(l)) >> l.shift
  }

  function IdOf(l: Layout, tag: bv16): nat
    requires ValidLayout(l)
  {
    IdWord(l, tag) as nat
  }

  /** The LIVE and hash bits of a tag: what a scan compares with the needle. */
  function ScanBits(l: Layout, tag: bv16): bv16
    requires ValidLayout(l)
  {
    tag & ScanMask(l)
  }

  /** Equal to the needle in the LIVE and hash bits, whatever the id and version. */
  predicate Matches(l: Layout, tag: bv16, needle: bv16)
    requires ValidLayout(l)
  {
    ScanBits(l, tag) == needle
  }

  function Pack(l: Layout, id: bv16, needle: bv16): bv16
    requires ValidLayout(l)
  {
    LIVE | (id << l.shift) | (needle & HashMask(l))
  }

  function NewTag(l: Layout, id: nat, needle: bv16): bv16
    requires ValidLayout(l) && id < MAX_PER_SHARD
  {
    Pack(l, id as bv16, needle)
  }

  function Repack(l: Layout, tag: bv16, id: bv16): bv16
    requires ValidLayout(l)
  {
    (tag & !IdMask(l)) | (id << l.shift)
  }

  function WithId(l: Layout, tag: bv16, id: nat): bv16
    requires ValidLayout(l) && id < MAX_PER_SHARD
  {
    Repack(l, tag, id as bv16)
  }

  function Flip(tag: bv16): bv16 { tag ^ VERSION }

  /** Length of a tag array with room for `n` tags: rounded up to whole lanes. */
  function RoundUp(n: nat): (r: nat)
    ensures n <= r < n + LANE && r % LANE == 0
  {
    (n + LANE - 1) / LANE * LANE
  }

  // ---- laws ----

  lemma SmallId(id: nat)
    requires id < MAX_PER_SHARD
    ensures (id as bv16) < 64 && (id as bv16) as nat == id
  {
  }

  lemma SmallWord(w: bv16)
    requires w < 64
    ensures w as nat < MAX_PER_SHARD
  {
  }

  lemma IdWordBound(l: Layout, tag: bv16)
    requires ValidLayout(l)
    ensures IdWord(l, tag) < 64
  {
  }

  lemma IdBound(l: Layout, tag: bv16)
    requires ValidLayout(l)
    ensures IdOf(l, tag) < MAX_PER_SHARD
  {
    hide IdWord;
    IdWordBound(l, tag);
    SmallWord(IdWord(l, tag));
  }

  lemma PackId(l: Layout, id: bv16, needle: bv16)
    requires ValidLayout(l) && id < 64
    ensures IdWord(l, Pack(l, id, needle)) == id
  {
  }

  lemma PackScan(l: Layout, id: bv16, needle: bv16)
    requires ValidLayout(l) && id < 64
    ensures ScanBits(l, Pack(l, id, needle)) == LIVE | (needle & HashMask(l))
    ensures Live(Pack(l, id, needle))
  {
  }

  lemma RepackId(l: Layout, tag: bv16, id: bv16)
    requires ValidLayout(l) && id < 64
    ensures IdWord(l, Repack(l, tag, id)) == id
  {
  }

  lemma RepackScan(l: Layout, tag: bv16, id: bv16)
    requires ValidLayout(l) && id < 64
    ensures ScanBits(l, Repack(l, tag, id)) == ScanBits(l, tag)
  {
  }

  lemma FlipId(l: Layout, tag: bv16)
    requires ValidLayout(l) && l.versioned
    ensures IdWord(l, Flip(tag)) == IdWord(l, tag)
  {
  }

  lemma FlipScan(l: Layout, tag: bv16)
    requires ValidLayout(l) && l.versioned
    ensures ScanBits(l, Flip(tag)) == ScanBits(l, tag)
  {
  }

  /** The needle is LIVE and hash bits only. */
  lemma NeedleShape(l: Layout, hash: bv64)
    requires ValidLayout(l)
    ensures LIVE | (Needle(l, hash) & HashMask(l)) == Needle(l, hash)
    ensures Live(Needle(l, hash))
  {
    HashWidth(l, hash);
    hide HashBits;
    SpreadShape(l, HashBits(l, hash));
  }

  lemma NewTagLaws(l: Layout, id: nat, hash: bv64)
    requires ValidLayout(l) && id < MAX_PER_SHARD
    ensures var t := NewTag(l, id, Needle(l, hash));
      IdOf(l, t) == id && Matches(l, t, Needle(l, hash)) && t != EMPTY
  {
    hide Pack, IdWord, ScanBits, Needle, HashMask;
    SmallId(id);
    NeedleShape(l, hash);
    PackId(l, id as bv16, Needle(l, hash));
    PackScan(l, id as bv16, Needle(l, hash));
  }

  lemma WithIdLaws(l: Layout, tag: bv16, id: nat, needle: bv16)
    requires ValidLayout(l) && id < MAX_PER_SHARD
    ensures IdOf(l, WithId(l, tag, id)) == id
    ensures Matches(l, WithId(l, tag, id), needle) <==> Matches(l, tag, needle)
  {
    hide Repack, IdWord, ScanBits;
    SmallId(id);
    RepackId(l, tag, id as bv16);
    RepackScan(l, tag, id as bv16);
  }

  lemma FlipLaws(l: Layout, tag: bv16, needle: bv16)
    requires ValidLayout(l) && l.versioned
    ensures IdOf(l, Flip(tag)) == IdOf(l, tag)
    ensures Matches(l, Flip(tag), needle) <==> Matches(l, tag, needle)
  {
    hide Flip, IdWord, ScanBits;
    FlipId(l, tag);
    FlipScan(l, tag);
  }

  lemma MatchIsLive(l: Layout, tag: bv16, needle: bv16)
    requires ValidLayout(l) && Live(needle) && Matches(l, tag, needle)
    ensures Live(tag) && tag != EMPTY
  {
  }

  lemma HashWidth(l: Layout, hash: bv64)
    ensures HashBits(l, hash) <= if l.versioned then 0xFF else 0x1FF
  {
  }

  lemma TopBits(l: Layout, a: bv64, b: bv64)
    ensures HashBits(l, a) == HashBits(l, b) <==> if l.versioned then a >> 56 == b >> 56 else a >> 55 == b >> 55
  {
  }

  lemma SpreadShape(l: Layout, h: bv16)
    requires ValidLayout(l) && h <= if l.versioned then 0xFF else 0x1FF
    ensures LIVE | (Spread(l, h) & HashMask(l)) == Spread(l, h)
    ensures Live(Spread(l, h))
  {
  }

  /** The kept bits can be read back from the needle. */
  lemma SpreadUnpack(l: Layout, h: bv16)
    requires ValidLayout(l) && h <= if l.versioned then 0xFF else 0x1FF
    ensures Gather(l, Spread(l, h)) == h
  {
  }

  function Gather(l: Layout, needle: bv16): bv16
    requires ValidLayout(l)
  {
    var lowMask := (1 << l.shift) - 1;
    (needle & 0x7FFF & lowMask) | (((needle & 0x7FFF) >> 6) & !lowMask)
  }

  /** Two hashes give the same needle exactly when they agree in their top nine bits, or eight. */
  lemma NeedleInjective(l: Layout, a: bv64, b: bv64)
    requires ValidLayout(l)
    ensures Needle(l, a) == Needle(l, b) <==> if l.versioned then a >> 56 == b >> 56 else a >> 55 == b >> 55
  {
    HashWidth(l, a);
    HashWidth(l, b);
    TopBits(l, a, b);
    hide HashBits, Gather, Spread;
    SpreadUnpack(l, HashBits(l, a));
    SpreadUnpack(l, HashBits(l, b));
  }

  /** The masked tag is the byte offset of the entry: id times the stride. */
  lemma IdIsByteOffset(l: Layout, tag: bv16)
    requires l.shift == 4 || l.shift == 5 || l.shift == 6
    ensures var stride := if l.shift == 4 then 16 else if l.shift == 5 then 32 else 64;
      (tag & IdMask(l)) as nat == IdOf(l, tag) * stride
  {
    var id := (tag & IdMask(l)) >> l.shift;
    assert id < 64;
    assert tag & IdMask(l) == id << l.shift;
  }
}

/** The tick-level Bloom filter (pkg/engine/bloom.go): 64 shards of 32 words of 64 bits. */
module Bloom {
  import opened Words
  import opened Hashes

  const SHARDS: nat := 64
  const WORDS_PER_SHARD: nat := 32
  const BITS: nat := 2048  // per shard

  function ShardOf(id: UInt32): (s: nat)
    ensures s < SHARDS
  {
    Mul32(id, HASH1) % SHARDS
  }

  function Bit1(id: UInt32): (b: nat)
    ensures b < BITS
  {
    Mul32(id, HASH1) % BITS
  }

  function Bit2(id: UInt32): (b: nat)
    ensures b < BITS
  {
    Mul32(id, HASH2) % BITS
  }

  // ----- one-bit masks -----

  function Mask(offset: nat): bv64
    requires offset < 64
  {
    (1 as bv64) << (offset as bv6)
  }

  predicate Has(word: bv64, mask: bv64) {
    word & mask != 0
  }

  function With(word: bv64, mask: bv64): bv64 {
    word | mask
  }

  lemma ShiftsDisjoint(j: bv6, k: bv6)
    requires j != k
    ensures ((1 as bv64) << j) & ((1 as bv64) << k) == 0
  {
  }

  lemma SameOffset(j: nat)
    requires j < 64
    ensures (j as bv6) as nat == j
  {
  }

  lemma OffsetsDistinct(j: nat, k: nat)
    requires j < 64 && k < 64 && j != k
    ensures j as bv6 != k as bv6
  {
    SameOffset(j);
    SameOffset(k);
  }

  lemma MasksDisjoint(j: nat, k: nat)
    requires j < 64 && k < 64 && j != k
    ensures Mask(j) & Mask(k) == 0
  {
    OffsetsDistinct(j, k);
    ShiftsDisjoint(j as bv6, k as bv6);
  }

  lemma MaskNonzero(j: nat)
    requires j < 64
    ensures Mask(j) != 0
  {
  }

  lemma OrKeepsOther(w: bv64, m: bv64, n: bv64)
    requires m & n == 0
    ensures Has(With(w, m), n) == Has(w, n)
  {
  }

  lemma OrSets(w: bv64, m: bv64)
    requires m != 0
    ensures Has(With(w, m), m)
  {
  }

  /** ORing a one-bit mask into a word sets that bit and no other. */
  lemma OrSetsOneBit(w: bv64, j: nat, k: nat)
    requires j < 64 && k < 64
    ensures Has(With(w, Mask(j)), Mask(k)) <==> Has(w, Mask(k)) || j == k
  {
    hide Mask, Has, With;
    if j == k {
      MaskNonzero(j);
      OrSets(w, Mask(j));
    } else {
      MasksDisjoint(j, k);
      OrKeepsOther(w, Mask(j), Mask(k));
    }
  }

  // ----- the filter -----

  /** Has some add since the last reset set bit b of shard s? */
  ghost predicate Marked(adds: seq<UInt32>, s: nat, b: nat) {
    adds != [] &&
    (|| Marked(adds[..|adds| - 1], s, b)
     || (ShardOf(adds[|adds| - 1]) == s && (Bit1(adds[|adds| - 1]) == b || Bit2(adds[|adds| - 1]) == b)))
  }

  /** What CheckAndAdd answers for id after the given adds. */
  ghost predicate Present(adds: seq<UInt32>, id: UInt32) {
    Marked(adds, ShardOf(id), Bit1(id)) && Marked(adds, ShardOf(id), Bit2(id))
  }

  lemma ZeroHasNone(k: nat)
    requires k < 64
    ensures !Has(0, Mask(k))
  {
  }

  lemma MarkedAppended(adds: seq<UInt32>, id: UInt32)
    ensures forall s: nat, b: nat {:trigger Marked(adds + [id], s, b)} ::
              Marked(adds + [id], s, b) <==>
              Marked(adds, s, b) || (ShardOf(id) == s && (Bit1(id) == b || Bit2(id) == b))
  {
  }

  class TickBloomFilter {
    const words: array2<bv64>
    ghost var adds: seq<UInt32>  // since the last reset

    ghost predicate Valid()
      reads this, words
    {
      && words.Length0 == SHARDS && words.Length1 == WORDS_PER_SHARD
      && forall s: nat, b: nat :: s < SHARDS && b < BITS ==> (BitSet(s, b) <==> Marked(adds, s, b))
    }

    ghost predicate BitSet(s: nat, b: nat)
      reads this, words
      requires words.Length0 == SHARDS && words.Length1 == WORDS_PER_SHARD && s < SHARDS && b < BITS
    {
      Has(words[s, b / 64], Mask(b % 64))
    }

    constructor ()
      ensures Valid() && fresh(words) && adds == []
    {
      words := new bv64[SHARDS, WORDS_PER_SHARD]((_, _) => 0);
      adds := [];
    }

    method CheckAndAdd(id: UInt32) returns (present: bool)
      requires Valid()
      modifies this, words
      ensures Valid() && adds == old(adds) + [id]
      ensures present <==> Present(old(adds), id)
    {
      hide Mul32, Has, Mask, Marked;
      var h1 := Mul32(id, HASH1);
      var h2 := Mul32(id, HASH2);
      var shardIdx := h1 % SHARDS;
      var bit1, bit2 := h1 % BITS, h2 % BITS;
      assert BitSet(shardIdx, bit1) <==> Marked(adds, shardIdx, bit1);
      assert BitSet(shardIdx, bit2) <==> Marked(adds, shardIdx, bit2);
      present := Has(words[shardIdx, bit1 / 64], Mask(bit1 % 64)) && Has(words[shardIdx, bit2 / 64], Mask(bit2 % 64));
      ghost var before := adds;
      SetBit(shardIdx, bit1);
      SetBit(shardIdx, bit2);
      adds := adds + [id];
      MarkedAppended(before, id);
    }

    /** shard.bits[bit/64] |= 1 << (bit%64). */
    method SetBit(shard: nat, bit: nat)
      requires words.Length0 == SHARDS && words.Length1 == WORDS_PER_SHARD
      requires shard < SHARDS && bit < BITS
      modifies words
      ensures forall s: nat, b: nat :: s < SHARDS && b < BITS ==>
                (BitSet(s, b) <==> old(BitSet(s, b)) || (s == shard && b == bit))
    {
      hide Has, Mask, With;
      ghost var word := words[shard, bit / 64];
      words[shard, bit / 64] := With(words[shard, bit / 64], Mask(bit % 64));
      forall s: nat, b: nat | s < SHARDS && b < BITS
        ensures BitSet(s, b) <==> old(BitSet(s, b)) || (s == shard && b == bit)
      {
        if s == shard && b / 64 == bit / 64 {
          OrSetsOneBit(word, bit % 64, b % 64);
        }
      }
    }

    method Reset()
      requires Valid()
      modifies this, words
      ensures Valid() && adds == []
    {
      hide Has, Mask;
      var i := 0;
      while i < SHARDS
        invariant 0 <= i <= SHARDS
        invariant forall s: nat, w: nat :: s < i && w < WORDS_PER_SHARD ==> words[s, w] == 0
      {
        var j := 0;
        while j < WORDS_PER_SHARD
          invariant 0 <= j <= WORDS_PER_SHARD
          invariant forall s: nat, w: nat :: s < i && w < WORDS_PER_SHARD ==> words[s, w] == 0
          invariant forall w: nat :: w < j ==> words[i, w] == 0
        {
          words[i, j] := 0;
          j := j + 1;
        }
        i := i + 1;
      }
      adds := [];
      forall s: nat, b: nat | s < SHARDS && b < BITS ensures !BitSet(s, b) {
        ZeroHasNone(b % 64);
      }
    }
  }

  // ----- exactness -----

  lemma SameResidues(x: int, y: int, q: int)
    requires x == y + 2048 * q
    ensures x % 2048 == y % 2048 && x % 64 == y % 64
  {
    SameResidue2048(x, y, q);
    SameResidue64(x, y, 32 * q);
  }

  /** The hash functions modulo the number of bits are multiplications by 619 and 1589. */
  lemma BitsAreProducts(id: UInt32)
    ensures Bit1(id) == 619 * id % 2048 && ShardOf(id) == 619 * id % 64
    ensures Bit2(id) == 1589 * id % 2048
  {
    SameResidues(Mul32(id, HASH1), 619 * id, 1097081 * id - 0x20_0000 * (id * HASH1 / TWO32));
    SameResidues(Mul32(id, HASH2), 1589 * id, 1594965 * id - 0x20_0000 * (id * HASH2 / TWO32));
  }

  /** The adds that make the filter answer yes for id: those congruent to it modulo 2048 and, when id is a
      multiple of 32 (both bits then use the same in-word offset), those congruent to 31 * id. */
  predicate Confused(h: UInt32, id: UInt32) {
    h % BITS == id % BITS || (id % 32 == 0 && h % BITS == 31 * id % BITS)
  }

  lemma SameClassSameBits(h: UInt32, id: UInt32)
    requires h % BITS == id % BITS
    ensures ShardOf(h) == ShardOf(id) && Bit1(h) == Bit1(id) && Bit2(h) == Bit2(id)
  {
    BitsAreProducts(h);
    BitsAreProducts(id);
    hide ShardOf, Bit1, Bit2;
    var k := h / 2048 - id / 2048;
    assert h == id + 2048 * k;
    SameResidues(619 * h, 619 * id, 619 * k);
    SameResidues(1589 * h, 1589 * id, 1589 * k);
  }

  lemma OffsetsMeet(m: int)
    ensures 1589 * (32 * m) % 64 == 619 * (32 * m) % 64
  {
    SameResidue64(1589 * (32 * m), 619 * (32 * m), 485 * m);
  }

  lemma PartnerSwapsBits(h: UInt32, id: UInt32)
    requires id % 32 == 0 && h % BITS == 31 * id % BITS
    ensures ShardOf(h) == ShardOf(id) && Bit1(h) == Bit2(id) && Bit2(h) == Bit1(id)
  {
    BitsAreProducts(h);
    BitsAreProducts(id);
    hide ShardOf, Bit1, Bit2;
    var m, k := id / 32, h / 2048 - 31 * id / 2048;
    assert id == 32 * m && h == 31 * id + 2048 * k;
    SameResidues(619 * h, 1589 * id, 619 * k + 275 * m);
    SameResidues(1589 * h, 619 * id, 1589 * k + 760 * m);
    OffsetsMeet(m);
  }

  lemma MultipleOf32(id: nat, t: int)
    requires 970 * id == 64 * t
    ensures id % 32 == 0
  {
    assert 485 * id == 32 * t;
    assert id == 32 * (13 * t - 197 * id);
  }

  lemma SecondBitMeets(h: UInt32, id: UInt32, j: int, k: int)
    requires 619 * h - 619 * id == 64 * j && 1589 * h - 619 * id == 2048 * k
    ensures id % 32 == 0 && h % BITS == 31 * id % BITS
  {
    // h == id modulo 64, hence 970 * id == 0 modulo 64, and 485 is invertible modulo 32.
    var i := 579 * j - 5600 * (h - id);
    assert h == id + 64 * i;
    MultipleOf32(id, 32 * k - 1589 * i);
    var q := id / 32;
    assert id == 32 * q;
    SameResidues(h, 31 * id, 1053 * k - 817 * h + 10184 * q);
  }

  /** Two ids of one shard whose first bits agree, or whose first and second bits meet, are confused. */
  lemma MeetingBitsConfused(h: UInt32, id: UInt32)
    requires ShardOf(h) == ShardOf(id) && (Bit1(h) == Bit1(id) || Bit2(h) == Bit1(id))
    ensures Confused(h, id)
  {
    BitsAreProducts(h);
    BitsAreProducts(id);
    hide ShardOf, Bit1, Bit2;
    if 619 * h % 2048 == 619 * id % 2048 {
      var k := 619 * h / 2048 - 619 * id / 2048;
      assert 619 * h - 619 * id == 2048 * k;
      SameResidues(h, id, 579 * k - 175 * (h - id));
    } else {
      var j := 619 * h / 64 - 619 * id / 64;
      assert 619 * h - 619 * id == 64 * j;
      var k := 1589 * h / 2048 - 619 * id / 2048;
      assert 1589 * h - 619 * id == 2048 * k;
      SecondBitMeets(h, id, j, k);
    }
  }

  lemma {:induction false} MarkedByConfused(adds: seq<UInt32>, id: UInt32)
    ensures Marked(adds, ShardOf(id), Bit1(id)) ==> exists h :: h in adds && Confused(h, id)
  {
    hide ShardOf, Bit1, Bit2, Confused;
    if adds != [] && Marked(adds, ShardOf(id), Bit1(id)) {
      var last := adds[|adds| - 1];
      if Marked(adds[..|adds| - 1], ShardOf(id), Bit1(id)) {
        MarkedByConfused(adds[..|adds| - 1], id);
        var h :| h in adds[..|adds| - 1] && Confused(h, id);
        assert h in adds;
      } else {
        MeetingBitsConfused(last, id);
      }
    }
  }

  lemma {:induction false} ConfusedMarks(adds: seq<UInt32>, h: UInt32, id: UInt32)
    requires h in adds && Confused(h, id)
    ensures Present(adds, id)
  {
    hide ShardOf, Bit1, Bit2;
    var last := adds[|adds| - 1];
    if last == h {
      if h % BITS == id % BITS {
        SameClassSameBits(h, id);
      } else {
        PartnerSwapsBits(h, id);
      }
    } else {
      ConfusedMarks(adds[..|adds| - 1], h, id);
    }
  }

  /** The filter is exact about residues: it answers yes for id iff an id confused with it was added since
      the last reset. For an id that 32 does not divide that means: iff an id congruent to it modulo 2048
      was added. */
  lemma FilterIsExact(adds: seq<UInt32>, id: UInt32)
    ensures Present(adds, id) <==> exists h :: h in adds && Confused(h, id)
    ensures id % 32 != 0 ==> (Present(adds, id) <==> exists h :: h in adds && h % BITS == id % BITS)
  {
    hide ShardOf, Bit1, Bit2;
    if Present(adds, id) {
      MarkedByConfused(adds, id);
    }
    if h :| h in adds && Confused(h, id) {
      ConfusedMarks(adds, h, id);
    }
    if id % 32 != 0 && exists h :: h in adds && h % BITS == id % BITS {
      var h :| h in adds && h % BITS == id % BITS;
      assert Confused(h, id);
    }
  }

  /** There are no false negatives between resets. */
  lemma NoFalseNegatives(adds: seq<UInt32>, id: UInt32)
    requires id in adds
    ensures Present(adds, id)
  {
    ConfusedMarks(adds, id, id);
  }

  /** A false positive: after 992 alone has been added, the filter reports 32 as present. */
  lemma FalsePositive()
    ensures Present([992], 32) && (32 as UInt32) % BITS != (992 as UInt32) % BITS
  {
    ConfusedMarks([992], 992, 32);
  }
}

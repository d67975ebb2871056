/** The multiplicative hashes that the three sketches share, and residues (pkg/engine/cms.go, bloom.go, hll.go). */
module Hashes {
  import opened Words

  const HASH1: UInt32 := 0x85ebca6b
  const HASH2: UInt32 := 0xc2b2ae35

  lemma SameResidue64(x: int, y: int, q: int)
    requires x == y + 64 * q
    ensures x % 64 == y % 64
  {
  }

  lemma SameResidue1024(x: int, y: int, q: int)
    requires x == y + 1024 * q
    ensures x % 1024 == y % 1024
  {
  }

  lemma SameResidue2048(x: int, y: int, q: int)
    requires x == y + 2048 * q
    ensures x % 2048 == y % 2048
  {
  }
}

/** The 32 bits of a word, and the operations of SHA-256 on them. */
module WordBits {

  type Bits = bv32

  type Amount = n: Bits | 0 < n < 32 witness 1

  function RotrBits(x: Bits, n: Amount): Bits {
    (x >> n) | (x << (32 - n))
  }

  function ShrBits(x: Bits, n: Amount): Bits {
    x >> n
  }

  function XorBits(x: Bits, y: Bits, z: Bits): Bits {
    x ^ y ^ z
  }

  function ChBits(x: Bits, y: Bits, z: Bits): Bits {
    (x & y) ^ (!x & z)
  }

  function MajBits(x: Bits, y: Bits, z: Bits): Bits {
    (x & y) ^ (x & z) ^ (y & z)
  }

  // ── At any places `m`, one bit or more ────────────────────────────────

  /** Where `x` is set, the bits are `y`'s, and where it is not, `z`'s. */
  lemma ChChooses(x: Bits, y: Bits, z: Bits, m: Bits)
    ensures x & m == m ==> ChBits(x, y, z) & m == y & m
    ensures x & m == 0 ==> ChBits(x, y, z) & m == z & m
  {
  }

  lemma MajAgrees(x: Bits, y: Bits, z: Bits, m: Bits)
    ensures x & m == y & m ==> MajBits(x, y, z) & m == x & m
  {
  }

  lemma MajTurns(x: Bits, y: Bits, z: Bits)
    ensures MajBits(x, y, z) == MajBits(x, z, y) && MajBits(x, y, z) == MajBits(y, z, x)
  {
  }

  /** Where two of the words agree, the bits are theirs. */
  lemma MajOfTwo(x: Bits, y: Bits, z: Bits, m: Bits)
    ensures x & m == y & m ==> MajBits(x, y, z) & m == x & m
    ensures x & m == z & m ==> MajBits(x, y, z) & m == x & m
    ensures y & m == z & m ==> MajBits(x, y, z) & m == y & m
  {
    MajTurns(x, y, z);
    MajAgrees(x, y, z, m);
    MajAgrees(x, z, y, m);
    MajAgrees(y, z, x, m);
    hide MajBits;
  }

  /** Where two of the words agree, the bits are the third's, and where they differ, its opposite. */
  lemma XorIsParity(x: Bits, y: Bits, z: Bits, m: Bits)
    ensures y & m == z & m ==> XorBits(x, y, z) & m == x & m
    ensures y & m == !z & m ==> XorBits(x, y, z) & m == !x & m
  {
  }

  /** The amounts the computation rotates by. */
  lemma RotrRotates(x: Bits)
    ensures RotrBits(x, 2) == x.RotateRight(2) && RotrBits(x, 13) == x.RotateRight(13)
    ensures RotrBits(x, 22) == x.RotateRight(22) && RotrBits(x, 6) == x.RotateRight(6)
    ensures RotrBits(x, 11) == x.RotateRight(11) && RotrBits(x, 25) == x.RotateRight(25)
    ensures RotrBits(x, 7) == x.RotateRight(7) && RotrBits(x, 18) == x.RotateRight(18)
    ensures RotrBits(x, 17) == x.RotateRight(17) && RotrBits(x, 19) == x.RotateRight(19)
  {
  }

  /** What is shifted out is lost, and nothing else. */
  lemma ShrShifts(x: Bits)
    ensures (ShrBits(x, 3) << 3) | (x & 0x7) == x && ShrBits(x, 3) < 0x2000_0000
    ensures (ShrBits(x, 10) << 10) | (x & 0x3ff) == x && ShrBits(x, 10) < 0x40_0000
  {
  }
}

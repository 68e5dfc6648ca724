/** Section 5.1.1 of FIPS 180-4: padding a message to whole blocks. */
module Sha256Padding {
  import Positional

  type Byte = b: nat | b < 256

  const TWO_TO_THE_64: nat := 0x1_0000_0000_0000_0000

  function Zeros(n: nat): (r: seq<Byte>)
    ensures |r| == n && forall k :: 0 <= k < n ==> r[k] == 0
  {
    seq(n, _ => 0)
  }

  /** `n` as `width` bytes, the most significant first. */
  function BigEndian(n: nat, width: nat): (r: seq<Byte>)
    ensures |r| == width
  {
    var digits := Positional.Digits(n, 256, width);
    seq(width, k requires 0 <= k < width => digits[k] as Byte)
  }

  /** `to_be_bytes` of the 64-bit count of bits. */
  function Length64(bits: nat): (r: seq<Byte>)
    ensures |r| == 8
  {
    BigEndian(bits % TWO_TO_THE_64, 8)
  }

  /** The number of zero bytes behind the `0x80` byte. */
  function ZeroCount(length: nat): (z: nat)
    ensures z < 64 && (length + 1 + z) % 64 == 56
  {
    (119 - length % 64) % 64
  }

  function Pad(data: seq<Byte>): seq<Byte> {
    data + [0x80] + Zeros(ZeroCount(|data|)) + Length64(8 * |data|)
  }

  lemma PadIsWhole(data: seq<Byte>)
    ensures |Pad(data)| % 64 == 0
  {
    hide Length64, ZeroCount;
    assert |Pad(data)| == |data| + 1 + ZeroCount(|data|) + 8;
  }

  /** Section 5.1.1 counts bits: one bit 1, then the least number of zero bits that leaves 64 to fill a block. */
  lemma PaddingIsLeast(length: nat, k: nat)
    ensures (8 * length + 1 + (7 + 8 * ZeroCount(length))) % 512 == 448
    ensures (8 * length + 1 + k) % 512 == 448 ==> k >= 7 + 8 * ZeroCount(length)
  {
    var z := ZeroCount(length);
    hide ZeroCount;
    var blocks := (length + 1 + z) / 64;
    assert 8 * length + 1 + (7 + 8 * z) == 512 * blocks + 448;
  }

  lemma BigEndianInjective(m: nat, n: nat, width: nat)
    requires m < Positional.Power(256, width) && n < Positional.Power(256, width)
    requires BigEndian(m, width) == BigEndian(n, width)
    ensures m == n
  {
    var a, b := Positional.Digits(m, 256, width), Positional.Digits(n, 256, width);
    assert forall k :: 0 <= k < width ==> a[k] == BigEndian(m, width)[k] && b[k] == BigEndian(n, width)[k];
    assert a == b;
    Positional.ValueOfDigits(m, 256, width);
    Positional.ValueOfDigits(n, 256, width);
  }

  /** Below 2^64 bits the eight length bytes determine the length. */
  lemma Length64Injective(m: nat, n: nat, width: nat)
    requires width == 8 && m < TWO_TO_THE_64 && n < TWO_TO_THE_64
    requires Length64(m) == Length64(n)
    ensures m == n
  {
    assert m % TWO_TO_THE_64 == m && n % TWO_TO_THE_64 == n;
    Positional.PowersUsed(width);
    BigEndianInjective(m, n, width);
  }

  /** The message and its length are both still there after padding. */
  lemma PadParts(data: seq<Byte>)
    ensures |Pad(data)| >= |data| + 9
    ensures Pad(data)[..|data|] == data
    ensures Pad(data)[|Pad(data)| - 8..] == Length64(8 * |data|)
  {
    var front := data + [0x80] + Zeros(ZeroCount(|data|));
    assert Pad(data) == front + Length64(8 * |data|);
  }

  /** Below 2^61 bytes, no two messages are padded to the same blocks. */
  lemma PadInjective(a: seq<Byte>, b: seq<Byte>)
    requires 8 * |a| < TWO_TO_THE_64 && 8 * |b| < TWO_TO_THE_64
    requires Pad(a) == Pad(b)
    ensures a == b
  {
    PadParts(a);
    PadParts(b);
    Length64Injective(8 * |a|, 8 * |b|, 8);
  }

  /** The padding loop of the program. */
  method PadMessage(data: seq<Byte>) returns (padded: seq<Byte>)
    ensures padded == Pad(data)
  {
    hide Length64, ZeroCount;
    padded := data;
    padded := padded + [0x80];
    ghost var zeros := 0;
    while |padded| % 64 != 56
      invariant zeros <= ZeroCount(|data|)
      invariant padded == data + [0x80] + Zeros(zeros)
      decreases ZeroCount(|data|) - zeros
    {
      padded := padded + [0x00];
      assert Zeros(zeros + 1) == Zeros(zeros) + [0];
      zeros := zeros + 1;
    }
    padded := padded + Length64(8 * |data|);
  }
}

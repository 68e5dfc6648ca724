/** Sections 4.2.2 and 5.3.3 of FIPS 180-4: the constants are bits of the roots of the first primes. */
module Sha256Constants {
  import Positional
  import opened Sha256

  const PRIMES: seq<nat> :=
    [2, 3, 5, 7, 11, 13, 17, 19]
    + [23, 29, 31, 37, 41, 43, 47, 53]
    + [59, 61, 67, 71, 73, 79, 83, 89]
    + [97, 101, 103, 107, 109, 113, 127, 131]
    + [137, 139, 149, 151, 157, 163, 167, 173]
    + [179, 181, 191, 193, 197, 199, 211, 223]
    + [227, 229, 233, 239, 241, 251, 257, 263]
    + [269, 271, 277, 281, 283, 293, 307, 311]

  predicate IsPrime(n: nat) {
    n >= 2 && forall d :: 2 <= d < n ==> n % d != 0
  }

  /** `root` is the square root of `p`, to 32 binary places. */
  predicate IsSquareRoot(root: nat, p: nat) {
    root * root <= p * 0x1_0000_0000_0000_0000 < (root + 1) * (root + 1)
  }

  /** `root` is the cube root of `p`, to 32 binary places. */
  predicate IsCubeRoot(root: nat, p: nat) {
    root * root * root <= p * 0x1_0000_0000_0000_0000_0000_0000 < (root + 1) * (root + 1) * (root + 1)
  }

  // ── The primes ────────────────────────────────────────────────────────

  /** No prime up to 17 divides `n`, unless it is `n`. */
  predicate Sieved(n: nat) {
    && n >= 2
    && (n % 2 == 0 ==> n == 2) && (n % 3 == 0 ==> n == 3) && (n % 5 == 0 ==> n == 5) && (n % 7 == 0 ==> n == 7)
    && (n % 11 == 0 ==> n == 11) && (n % 13 == 0 ==> n == 13) && (n % 17 == 0 ==> n == 17)
  }

  lemma Remainder(n: nat, p: nat, m: nat)
    requires p > 0 && n == p * m
    ensures n % p == 0
  {
    var k: int := m - n / p;
    assert p * k == n % p;
    Positional.Apart(p, k);
  }

  lemma Multiple(n: nat, p: nat)
    requires p in [2, 3, 5, 7, 11, 13, 17] && p < n && n % p == 0
    ensures !Sieved(n)
  {
    if p == 2 {
    } else if p == 3 {
    } else if p == 5 {
    } else if p == 7 {
    } else if p == 11 {
    } else if p == 13 {
    }
  }

  function LeastFactor(d: nat): (p: nat)
    requires 2 <= d < 18
    ensures p in [2, 3, 5, 7, 11, 13, 17] && p <= d && d == p * (d / p)
  {
    if d % 2 == 0 then 2 else if d % 3 == 0 then 3 else if d % 5 == 0 then 5 else d
  }

  lemma Regroup(n: nat, p: nat, q: nat, d: nat, e: nat)
    requires d == p * q && n == d * e
    ensures n == p * (q * e)
  {
  }

  lemma SmallFactor(n: nat, d: nat, e: nat)
    requires 2 <= d < 18 && d < n == d * e
    ensures !Sieved(n)
  {
    hide LeastFactor, Sieved;
    var p := LeastFactor(d);
    Regroup(n, p, d / p, d, e);
    Remainder(n, p, d / p * e);
    Multiple(n, p);
  }

  lemma Composite(n: nat, d: nat, e: nat)
    requires 2 <= d < n == d * e && n < 324
    ensures !Sieved(n)
  {
    hide Sieved;
    if d < 18 {
      SmallFactor(n, d, e);
    } else {
      assert e != 0 && e != 1;
      assert e >= 18 ==> d * e >= 18 * 18;
      assert e * d == n && e < n;
      SmallFactor(n, e, d);
    }
  }

  lemma PrimeIsSieved(n: nat)
    requires IsPrime(n)
    ensures Sieved(n)
  {
  }

  lemma SieveIsRight(n: nat)
    requires n < 324
    ensures Sieved(n) <==> IsPrime(n)
  {
    if n < 2 {
      assert !Sieved(n);
    } else if IsPrime(n) {
      PrimeIsSieved(n);
    } else {
      hide Sieved;
      var d :| 2 <= d < n && n % d == 0;
      Composite(n, d, n / d);
    }
  }

  /** The first number from `lo` that the sieve leaves is `hi`. */
  predicate FirstFrom(lo: nat, hi: nat)
    decreases hi - lo
  {
    lo <= hi && if lo == hi then Sieved(lo) else !Sieved(lo) && FirstFrom(lo + 1, hi)
  }

  lemma {:induction false} FirstFromMeans(lo: nat, hi: nat, n: nat)
    requires FirstFrom(lo, hi) && lo <= n <= hi
    ensures Sieved(n) <==> n == hi
    decreases hi - lo
  {
    hide Sieved;
    if lo < n {
      FirstFromMeans(lo + 1, hi, n);
    }
  }

  function Before(i: nat): nat
    requires i < 64
  {
    if i == 0 then 1 else PRIMES[i - 1]
  }

  // ── The roots ─────────────────────────────────────────────────────────

  /** The whole part of the cube root of a prime of the list. */
  function Whole(p: nat): nat {
    if p < 8 then 1 else if p < 27 then 2 else if p < 64 then 3 else if p < 125 then 4 else if p < 216 then 5 else 6
  }

  lemma Firsts16()
    ensures FirstFrom(2, 2) && FirstFrom(3, 3) && FirstFrom(4, 5) && FirstFrom(6, 7) && FirstFrom(8, 11)
    ensures FirstFrom(12, 13) && FirstFrom(14, 17) && FirstFrom(18, 19) && FirstFrom(20, 23) && FirstFrom(24, 29)
    ensures FirstFrom(30, 31) && FirstFrom(32, 37) && FirstFrom(38, 41) && FirstFrom(42, 43) && FirstFrom(44, 47)
    ensures FirstFrom(48, 53)
  {
  }

  lemma Primes16(i: nat)
    requires 0 <= i < 16
    ensures PRIMES[i] < 324 && FirstFrom(Before(i) + 1, PRIMES[i])
  {
    hide FirstFrom;
    Firsts16();
    assert PRIMES[0] == 2 && PRIMES[1] == 3 && PRIMES[2] == 5 && PRIMES[3] == 7 && PRIMES[4] == 11 && PRIMES[5] == 13;
    assert PRIMES[6] == 17 && PRIMES[7] == 19 && PRIMES[8] == 23 && PRIMES[9] == 29 && PRIMES[10] == 31;
    assert PRIMES[11] == 37 && PRIMES[12] == 41 && PRIMES[13] == 43 && PRIMES[14] == 47 && PRIMES[15] == 53;
  }

  lemma Firsts32()
    ensures FirstFrom(54, 59) && FirstFrom(60, 61) && FirstFrom(62, 67) && FirstFrom(68, 71) && FirstFrom(72, 73)
    ensures FirstFrom(74, 79) && FirstFrom(80, 83) && FirstFrom(84, 89) && FirstFrom(90, 97) && FirstFrom(98, 101)
    ensures FirstFrom(102, 103) && FirstFrom(104, 107) && FirstFrom(108, 109) && FirstFrom(110, 113)
    ensures FirstFrom(114, 127) && FirstFrom(128, 131)
  {
  }

  lemma Primes32(i: nat)
    requires 16 <= i < 32
    ensures PRIMES[i] < 324 && FirstFrom(Before(i) + 1, PRIMES[i])
  {
    hide FirstFrom;
    Firsts32();
    assert PRIMES[15] == 53 && PRIMES[16] == 59 && PRIMES[17] == 61 && PRIMES[18] == 67 && PRIMES[19] == 71;
    assert PRIMES[20] == 73 && PRIMES[21] == 79 && PRIMES[22] == 83 && PRIMES[23] == 89 && PRIMES[24] == 97;
    assert PRIMES[25] == 101 && PRIMES[26] == 103 && PRIMES[27] == 107 && PRIMES[28] == 109 && PRIMES[29] == 113;
    assert PRIMES[30] == 127 && PRIMES[31] == 131;
  }

  lemma Firsts48()
    ensures FirstFrom(132, 137) && FirstFrom(138, 139) && FirstFrom(140, 149) && FirstFrom(150, 151)
    ensures FirstFrom(152, 157) && FirstFrom(158, 163) && FirstFrom(164, 167) && FirstFrom(168, 173)
    ensures FirstFrom(174, 179) && FirstFrom(180, 181) && FirstFrom(182, 191) && FirstFrom(192, 193)
    ensures FirstFrom(194, 197) && FirstFrom(198, 199) && FirstFrom(200, 211) && FirstFrom(212, 223)
  {
  }

  lemma Primes48(i: nat)
    requires 32 <= i < 48
    ensures PRIMES[i] < 324 && FirstFrom(Before(i) + 1, PRIMES[i])
  {
    hide FirstFrom;
    Firsts48();
    assert PRIMES[31] == 131 && PRIMES[32] == 137 && PRIMES[33] == 139 && PRIMES[34] == 149 && PRIMES[35] == 151;
    assert PRIMES[36] == 157 && PRIMES[37] == 163 && PRIMES[38] == 167 && PRIMES[39] == 173 && PRIMES[40] == 179;
    assert PRIMES[41] == 181 && PRIMES[42] == 191 && PRIMES[43] == 193 && PRIMES[44] == 197 && PRIMES[45] == 199;
    assert PRIMES[46] == 211 && PRIMES[47] == 223;
  }

  lemma Firsts64()
    ensures FirstFrom(224, 227) && FirstFrom(228, 229) && FirstFrom(230, 233) && FirstFrom(234, 239)
    ensures FirstFrom(240, 241) && FirstFrom(242, 251) && FirstFrom(252, 257) && FirstFrom(258, 263)
    ensures FirstFrom(264, 269) && FirstFrom(270, 271) && FirstFrom(272, 277) && FirstFrom(278, 281)
    ensures FirstFrom(282, 283) && FirstFrom(284, 293) && FirstFrom(294, 307) && FirstFrom(308, 311)
  {
  }

  lemma Primes64(i: nat)
    requires 48 <= i < 64
    ensures PRIMES[i] < 324 && FirstFrom(Before(i) + 1, PRIMES[i])
  {
    hide FirstFrom;
    Firsts64();
    assert PRIMES[47] == 223 && PRIMES[48] == 227 && PRIMES[49] == 229 && PRIMES[50] == 233 && PRIMES[51] == 239;
    assert PRIMES[52] == 241 && PRIMES[53] == 251 && PRIMES[54] == 257 && PRIMES[55] == 263 && PRIMES[56] == 269;
    assert PRIMES[57] == 271 && PRIMES[58] == 277 && PRIMES[59] == 281 && PRIMES[60] == 283 && PRIMES[61] == 293;
    assert PRIMES[62] == 307 && PRIMES[63] == 311;
  }

  lemma Roots8(i: nat)
    requires 0 <= i < 8
    ensures IsCubeRoot(Whole(PRIMES[i]) * 0x1_0000_0000 + K[i], PRIMES[i])
  {
    assert PRIMES[0] == 2 && PRIMES[1] == 3 && PRIMES[2] == 5 && PRIMES[3] == 7 && PRIMES[4] == 11 && PRIMES[5] == 13;
    assert PRIMES[6] == 17 && PRIMES[7] == 19;
    assert K[0] == 0x428a2f98 && K[1] == 0x71374491 && K[2] == 0xb5c0fbcf && K[3] == 0xe9b5dba5 && K[4] == 0x3956c25b;
    assert K[5] == 0x59f111f1 && K[6] == 0x923f82a4 && K[7] == 0xab1c5ed5;
    hide PRIMES, K;
    assert IsCubeRoot(0x1_428a2f98, 2) && IsCubeRoot(0x1_71374491, 3) && IsCubeRoot(0x1_b5c0fbcf, 5);
    assert IsCubeRoot(0x1_e9b5dba5, 7) && IsCubeRoot(0x2_3956c25b, 11) && IsCubeRoot(0x2_59f111f1, 13);
    assert IsCubeRoot(0x2_923f82a4, 17) && IsCubeRoot(0x2_ab1c5ed5, 19);
  }

  lemma Roots16(i: nat)
    requires 8 <= i < 16
    ensures IsCubeRoot(Whole(PRIMES[i]) * 0x1_0000_0000 + K[i], PRIMES[i])
  {
    assert PRIMES[8] == 23 && PRIMES[9] == 29 && PRIMES[10] == 31 && PRIMES[11] == 37 && PRIMES[12] == 41;
    assert PRIMES[13] == 43 && PRIMES[14] == 47 && PRIMES[15] == 53;
    assert K[8] == 0xd807aa98 && K[9] == 0x12835b01 && K[10] == 0x243185be && K[11] == 0x550c7dc3;
    assert K[12] == 0x72be5d74 && K[13] == 0x80deb1fe && K[14] == 0x9bdc06a7 && K[15] == 0xc19bf174;
    hide PRIMES, K;
    assert IsCubeRoot(0x2_d807aa98, 23) && IsCubeRoot(0x3_12835b01, 29) && IsCubeRoot(0x3_243185be, 31);
    assert IsCubeRoot(0x3_550c7dc3, 37) && IsCubeRoot(0x3_72be5d74, 41) && IsCubeRoot(0x3_80deb1fe, 43);
    assert IsCubeRoot(0x3_9bdc06a7, 47) && IsCubeRoot(0x3_c19bf174, 53);
  }

  lemma Roots24(i: nat)
    requires 16 <= i < 24
    ensures IsCubeRoot(Whole(PRIMES[i]) * 0x1_0000_0000 + K[i], PRIMES[i])
  {
    assert PRIMES[16] == 59 && PRIMES[17] == 61 && PRIMES[18] == 67 && PRIMES[19] == 71 && PRIMES[20] == 73;
    assert PRIMES[21] == 79 && PRIMES[22] == 83 && PRIMES[23] == 89;
    assert K[16] == 0xe49b69c1 && K[17] == 0xefbe4786 && K[18] == 0x0fc19dc6 && K[19] == 0x240ca1cc;
    assert K[20] == 0x2de92c6f && K[21] == 0x4a7484aa && K[22] == 0x5cb0a9dc && K[23] == 0x76f988da;
    hide PRIMES, K;
    assert IsCubeRoot(0x3_e49b69c1, 59) && IsCubeRoot(0x3_efbe4786, 61) && IsCubeRoot(0x4_0fc19dc6, 67);
    assert IsCubeRoot(0x4_240ca1cc, 71) && IsCubeRoot(0x4_2de92c6f, 73) && IsCubeRoot(0x4_4a7484aa, 79);
    assert IsCubeRoot(0x4_5cb0a9dc, 83) && IsCubeRoot(0x4_76f988da, 89);
  }

  lemma Roots32(i: nat)
    requires 24 <= i < 32
    ensures IsCubeRoot(Whole(PRIMES[i]) * 0x1_0000_0000 + K[i], PRIMES[i])
  {
    assert PRIMES[24] == 97 && PRIMES[25] == 101 && PRIMES[26] == 103 && PRIMES[27] == 107 && PRIMES[28] == 109;
    assert PRIMES[29] == 113 && PRIMES[30] == 127 && PRIMES[31] == 131;
    assert K[24] == 0x983e5152 && K[25] == 0xa831c66d && K[26] == 0xb00327c8 && K[27] == 0xbf597fc7;
    assert K[28] == 0xc6e00bf3 && K[29] == 0xd5a79147 && K[30] == 0x06ca6351 && K[31] == 0x14292967;
    hide PRIMES, K;
    assert IsCubeRoot(0x4_983e5152, 97) && IsCubeRoot(0x4_a831c66d, 101) && IsCubeRoot(0x4_b00327c8, 103);
    assert IsCubeRoot(0x4_bf597fc7, 107) && IsCubeRoot(0x4_c6e00bf3, 109) && IsCubeRoot(0x4_d5a79147, 113);
    assert IsCubeRoot(0x5_06ca6351, 127) && IsCubeRoot(0x5_14292967, 131);
  }

  lemma Roots40(i: nat)
    requires 32 <= i < 40
    ensures IsCubeRoot(Whole(PRIMES[i]) * 0x1_0000_0000 + K[i], PRIMES[i])
  {
    assert PRIMES[32] == 137 && PRIMES[33] == 139 && PRIMES[34] == 149 && PRIMES[35] == 151 && PRIMES[36] == 157;
    assert PRIMES[37] == 163 && PRIMES[38] == 167 && PRIMES[39] == 173;
    assert K[32] == 0x27b70a85 && K[33] == 0x2e1b2138 && K[34] == 0x4d2c6dfc && K[35] == 0x53380d13;
    assert K[36] == 0x650a7354 && K[37] == 0x766a0abb && K[38] == 0x81c2c92e && K[39] == 0x92722c85;
    hide PRIMES, K;
    assert IsCubeRoot(0x5_27b70a85, 137) && IsCubeRoot(0x5_2e1b2138, 139) && IsCubeRoot(0x5_4d2c6dfc, 149);
    assert IsCubeRoot(0x5_53380d13, 151) && IsCubeRoot(0x5_650a7354, 157) && IsCubeRoot(0x5_766a0abb, 163);
    assert IsCubeRoot(0x5_81c2c92e, 167) && IsCubeRoot(0x5_92722c85, 173);
  }

  lemma Roots48(i: nat)
    requires 40 <= i < 48
    ensures IsCubeRoot(Whole(PRIMES[i]) * 0x1_0000_0000 + K[i], PRIMES[i])
  {
    assert PRIMES[40] == 179 && PRIMES[41] == 181 && PRIMES[42] == 191 && PRIMES[43] == 193 && PRIMES[44] == 197;
    assert PRIMES[45] == 199 && PRIMES[46] == 211 && PRIMES[47] == 223;
    assert K[40] == 0xa2bfe8a1 && K[41] == 0xa81a664b && K[42] == 0xc24b8b70 && K[43] == 0xc76c51a3;
    assert K[44] == 0xd192e819 && K[45] == 0xd6990624 && K[46] == 0xf40e3585 && K[47] == 0x106aa070;
    hide PRIMES, K;
    assert IsCubeRoot(0x5_a2bfe8a1, 179) && IsCubeRoot(0x5_a81a664b, 181) && IsCubeRoot(0x5_c24b8b70, 191);
    assert IsCubeRoot(0x5_c76c51a3, 193) && IsCubeRoot(0x5_d192e819, 197) && IsCubeRoot(0x5_d6990624, 199);
    assert IsCubeRoot(0x5_f40e3585, 211) && IsCubeRoot(0x6_106aa070, 223);
  }

  lemma Roots56(i: nat)
    requires 48 <= i < 56
    ensures IsCubeRoot(Whole(PRIMES[i]) * 0x1_0000_0000 + K[i], PRIMES[i])
  {
    assert PRIMES[48] == 227 && PRIMES[49] == 229 && PRIMES[50] == 233 && PRIMES[51] == 239 && PRIMES[52] == 241;
    assert PRIMES[53] == 251 && PRIMES[54] == 257 && PRIMES[55] == 263;
    assert K[48] == 0x19a4c116 && K[49] == 0x1e376c08 && K[50] == 0x2748774c && K[51] == 0x34b0bcb5;
    assert K[52] == 0x391c0cb3 && K[53] == 0x4ed8aa4a && K[54] == 0x5b9cca4f && K[55] == 0x682e6ff3;
    hide PRIMES, K;
    assert IsCubeRoot(0x6_19a4c116, 227) && IsCubeRoot(0x6_1e376c08, 229) && IsCubeRoot(0x6_2748774c, 233);
    assert IsCubeRoot(0x6_34b0bcb5, 239) && IsCubeRoot(0x6_391c0cb3, 241) && IsCubeRoot(0x6_4ed8aa4a, 251);
    assert IsCubeRoot(0x6_5b9cca4f, 257) && IsCubeRoot(0x6_682e6ff3, 263);
  }

  lemma Roots64(i: nat)
    requires 56 <= i < 64
    ensures IsCubeRoot(Whole(PRIMES[i]) * 0x1_0000_0000 + K[i], PRIMES[i])
  {
    assert PRIMES[56] == 269 && PRIMES[57] == 271 && PRIMES[58] == 277 && PRIMES[59] == 281 && PRIMES[60] == 283;
    assert PRIMES[61] == 293 && PRIMES[62] == 307 && PRIMES[63] == 311;
    assert K[56] == 0x748f82ee && K[57] == 0x78a5636f && K[58] == 0x84c87814 && K[59] == 0x8cc70208;
    assert K[60] == 0x90befffa && K[61] == 0xa4506ceb && K[62] == 0xbef9a3f7 && K[63] == 0xc67178f2;
    hide PRIMES, K;
    assert IsCubeRoot(0x6_748f82ee, 269) && IsCubeRoot(0x6_78a5636f, 271) && IsCubeRoot(0x6_84c87814, 277);
    assert IsCubeRoot(0x6_8cc70208, 281) && IsCubeRoot(0x6_90befffa, 283) && IsCubeRoot(0x6_a4506ceb, 293);
    assert IsCubeRoot(0x6_bef9a3f7, 307) && IsCubeRoot(0x6_c67178f2, 311);
  }

  /** `PRIMES[i]` is prime number `i`, counted from 0. */
  lemma PrimeNumber(i: nat)
    requires i < 64
    ensures IsPrime(PRIMES[i])
    ensures forall n :: (if i == 0 then 0 else PRIMES[i - 1]) < n < PRIMES[i] ==> !IsPrime(n)
  {
    assert |PRIMES| == 64;
    hide FirstFrom, Sieved, PRIMES;
    if i < 16 { Primes16(i); } else if i < 32 { Primes32(i); } else if i < 48 { Primes48(i); } else { Primes64(i); }
    forall n: nat | Before(i) < n <= PRIMES[i] ensures IsPrime(n) <==> n == PRIMES[i] {
      FirstFromMeans(Before(i) + 1, PRIMES[i], n);
      SieveIsRight(n);
    }
  }

  /** Section 4.2.2: the first 32 bits of the fractional parts of the cube roots of the first 64 primes. */
  lemma KIsCubeRoots(i: nat) returns (root: nat)
    requires i < 64
    ensures IsCubeRoot(root, PRIMES[i]) && K[i] == root % 0x1_0000_0000
  {
    assert |PRIMES| == |K| == 64;
    hide IsCubeRoot, Whole, PRIMES, K;
    root := Whole(PRIMES[i]) * 0x1_0000_0000 + K[i];
    if i < 8 { Roots8(i); } else if i < 16 { Roots16(i); } else if i < 24 { Roots24(i); }
    else if i < 32 { Roots32(i); } else if i < 40 { Roots40(i); } else if i < 48 { Roots48(i); }
    else if i < 56 { Roots56(i); } else { Roots64(i); }
  }

  /** Section 5.3.3: the first 32 bits of the fractional parts of the square roots of the first eight primes. */
  lemma H0IsSquareRoots()

    ensures var h := [H0.a, H0.b, H0.c, H0.d, H0.e, H0.f, H0.g, H0.h];
            forall i :: 0 <= i < 8 ==> exists root: nat :: IsSquareRoot(root, PRIMES[i]) && h[i] == root % 0x1_0000_0000
  {
    assert PRIMES[0] == 2 && PRIMES[1] == 3 && PRIMES[2] == 5 && PRIMES[3] == 7 && PRIMES[4] == 11 && PRIMES[5] == 13;
    assert PRIMES[6] == 17 && PRIMES[7] == 19;
    hide PRIMES;
    assert IsSquareRoot(0x1_6a09e667, 2) && IsSquareRoot(0x1_bb67ae85, 3) && IsSquareRoot(0x2_3c6ef372, 5);
    assert IsSquareRoot(0x2_a54ff53a, 7) && IsSquareRoot(0x3_510e527f, 11) && IsSquareRoot(0x3_9b05688c, 13);
    assert IsSquareRoot(0x4_1f83d9ab, 17) && IsSquareRoot(0x4_5be0cd19, 19);
  }
}
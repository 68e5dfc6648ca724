/** The example of FIPS 180-4 for a message of one block: the digest of `abc`, round by round. */
module Sha256Example {
  import Positional
  import opened Sha256
  import opened Sha256Padding
  import opened WordBits

  // ── Words given by their bits ─────────────────────────────────────────

  lemma Back(b: Bits)
    ensures (b as nat) as Bits == b
  {
  }

  lemma RotrIs(x: Word, n: Amount, b: Bits)
    requires x == b as nat
    ensures Rotr(x, n) == RotrBits(b, n) as nat
  {
    hide RotrBits;
    Back(b);
  }

  lemma ShrIs(x: Word, n: Amount, b: Bits)
    requires x == b as nat
    ensures Shr(x, n) == ShrBits(b, n) as nat
  {
    hide ShrBits;
    Back(b);
  }

  lemma XorIs(x: Word, y: Word, z: Word, a: Bits, b: Bits, c: Bits)
    requires x == a as nat && y == b as nat && z == c as nat
    ensures Xor(x, y, z) == XorBits(a, b, c) as nat
  {
    hide XorBits;
    Back(a);
    Back(b);
    Back(c);
  }

  lemma ChIs(x: Word, y: Word, z: Word, a: Bits, b: Bits, c: Bits)
    requires x == a as nat && y == b as nat && z == c as nat
    ensures Ch(x, y, z) == ChBits(a, b, c) as nat
  {
    hide ChBits;
    Back(a);
    Back(b);
    Back(c);
  }

  lemma MajIs(x: Word, y: Word, z: Word, a: Bits, b: Bits, c: Bits)
    requires x == a as nat && y == b as nat && z == c as nat
    ensures Maj(x, y, z) == MajBits(a, b, c) as nat
  {
    hide MajBits;
    Back(a);
    Back(b);
    Back(c);
  }

  lemma BigSigma0Is(x: Word, b: Bits)
    requires x == b as nat
    ensures BigSigma0(x) == XorBits(RotrBits(b, 2), RotrBits(b, 13), RotrBits(b, 22)) as nat
  {
    hide Rotr, Xor, RotrBits, XorBits, K, H0;
    RotrIs(x, 2, b);
    RotrIs(x, 13, b);
    RotrIs(x, 22, b);
    XorIs(Rotr(x, 2), Rotr(x, 13), Rotr(x, 22), RotrBits(b, 2), RotrBits(b, 13), RotrBits(b, 22));
  }

  lemma BigSigma1Is(x: Word, b: Bits)
    requires x == b as nat
    ensures BigSigma1(x) == XorBits(RotrBits(b, 6), RotrBits(b, 11), RotrBits(b, 25)) as nat
  {
    hide Rotr, Xor, RotrBits, XorBits, K, H0;
    RotrIs(x, 6, b);
    RotrIs(x, 11, b);
    RotrIs(x, 25, b);
    XorIs(Rotr(x, 6), Rotr(x, 11), Rotr(x, 25), RotrBits(b, 6), RotrBits(b, 11), RotrBits(b, 25));
  }

  lemma SmallSigma0Is(x: Word, b: Bits)
    requires x == b as nat
    ensures SmallSigma0(x) == XorBits(RotrBits(b, 7), RotrBits(b, 18), ShrBits(b, 3)) as nat
  {
    hide Rotr, Shr, Xor, RotrBits, ShrBits, XorBits, K, H0;
    RotrIs(x, 7, b);
    RotrIs(x, 18, b);
    ShrIs(x, 3, b);
    XorIs(Rotr(x, 7), Rotr(x, 18), Shr(x, 3), RotrBits(b, 7), RotrBits(b, 18), ShrBits(b, 3));
  }

  lemma SmallSigma1Is(x: Word, b: Bits)
    requires x == b as nat
    ensures SmallSigma1(x) == XorBits(RotrBits(b, 17), RotrBits(b, 19), ShrBits(b, 10)) as nat
  {
    hide Rotr, Shr, Xor, RotrBits, ShrBits, XorBits, K, H0;
    RotrIs(x, 17, b);
    RotrIs(x, 19, b);
    ShrIs(x, 10, b);
    XorIs(Rotr(x, 17), Rotr(x, 19), Shr(x, 10), RotrBits(b, 17), RotrBits(b, 19), ShrBits(b, 10));
  }

  // ── One word of the schedule, and one round ───────────────────────────

  lemma Wrap(x: nat, y: nat)
    ensures (x % 0x1_0000_0000 + y) % 0x1_0000_0000 == (x + y) % 0x1_0000_0000
  {
  }

  lemma PlusThree(x: Word, y: Word, z: Word, u: Word)
    ensures Plus(Plus(Plus(x, y), z), u) == (x + y + z + u) % 0x1_0000_0000
  {
    Wrap(x + y, z);
    Wrap(x + y + z, u);
  }

  /** A word that follows from the ones 2, 7, 15 and 16 before it, which stand at `w2` and `w15` in bits. */
  lemma NextWord(w2: Word, w7: Word, w15: Word, w16: Word, b2: Bits, b15: Bits, w: Word)
    requires w2 == b2 as nat && w15 == b15 as nat
    requires w == ((XorBits(RotrBits(b2, 17), RotrBits(b2, 19), ShrBits(b2, 10)) as nat) + w7
                   + (XorBits(RotrBits(b15, 7), RotrBits(b15, 18), ShrBits(b15, 3)) as nat) + w16) % 0x1_0000_0000
    ensures Mix(w2, w7, w15, w16) == w
  {
    hide SmallSigma0, SmallSigma1, XorBits, RotrBits, ShrBits, Plus, K, H0;
    SmallSigma1Is(w2, b2);
    SmallSigma0Is(w15, b15);
    PlusThree(SmallSigma1(w2), w7, SmallSigma0(w15), w16);
  }

  /** What a round adds to the fourth and, with `SecondSum`, gives as the first working variable. */
  function FirstSum(e: Bits, f: Bits, g: Bits, h: nat, k: nat, w: nat): nat {
    h + (XorBits(RotrBits(e, 6), RotrBits(e, 11), RotrBits(e, 25)) as nat) + (ChBits(e, f, g) as nat) + k + w
  }

  function SecondSum(a: Bits, b: Bits, c: Bits): nat {
    (XorBits(RotrBits(a, 2), RotrBits(a, 13), RotrBits(a, 22)) as nat) + (MajBits(a, b, c) as nat)
  }

  lemma FirstSumIs(s: State, k: Word, w: Word, e: Bits, f: Bits, g: Bits)
    requires s.e == e as nat && s.f == f as nat && s.g == g as nat
    ensures T1(s, k, w) == FirstSum(e, f, g, s.h, k, w) % 0x1_0000_0000
  {
    hide BigSigma1, Ch, XorBits, RotrBits, ChBits, Plus, K, H0;
    BigSigma1Is(s.e, e);
    ChIs(s.e, s.f, s.g, e, f, g);
    PlusThree(s.h, BigSigma1(s.e), Ch(s.e, s.f, s.g), k);
    PlusWrapped(s.h + BigSigma1(s.e) + Ch(s.e, s.f, s.g) + k, w);
  }

  lemma PlusWrapped(x: nat, y: Word)
    ensures Plus(x % 0x1_0000_0000, y) == (x + y) % 0x1_0000_0000
  {
    Wrap(x, y);
  }

  lemma SecondSumIs(s: State, a: Bits, b: Bits, c: Bits)
    requires s.a == a as nat && s.b == b as nat && s.c == c as nat
    ensures T2(s) == SecondSum(a, b, c) % 0x1_0000_0000
  {
    hide BigSigma0, Maj, XorBits, RotrBits, MajBits, K, H0;
    BigSigma0Is(s.a, a);
    MajIs(s.a, s.b, s.c, a, b, c);
  }

  /** One round from `s`, whose working variables are given in bits too. */
  lemma Step(s: State, k: Word, w: Word, a: Bits, b: Bits, c: Bits, e: Bits, f: Bits, g: Bits, t: State)
    requires s.a == a as nat && s.b == b as nat && s.c == c as nat
    requires s.e == e as nat && s.f == f as nat && s.g == g as nat
    requires t.b == s.a && t.c == s.b && t.d == s.c && t.f == s.e && t.g == s.f && t.h == s.g
    requires t.a == (FirstSum(e, f, g, s.h, k, w) + SecondSum(a, b, c)) % 0x1_0000_0000
    requires t.e == (s.d + FirstSum(e, f, g, s.h, k, w)) % 0x1_0000_0000
    ensures Round(s, k, w) == t
  {
    hide T1, T2, FirstSum, SecondSum, K, H0;
    FirstSumIs(s, k, w, e, f, g);
    SecondSumIs(s, a, b, c);
    Wrap(FirstSum(e, f, g, s.h, k, w), T2(s));
    Wrap(SecondSum(a, b, c), FirstSum(e, f, g, s.h, k, w));
    Wrap(FirstSum(e, f, g, s.h, k, w), s.d);
  }

  predicate IsNext(w: seq<Word>, t: nat)
    requires 16 <= t < |w|
  {
    w[t] == Mix(w[t - 2], w[t - 7], w[t - 15], w[t - 16])
  }

  predicate IsSchedule(w: seq<Word>) {
    |w| == 64 && forall t :: 16 <= t < 64 ==> IsNext(w, t)
  }

  lemma Next(w: seq<Word>, t: nat, b2: Bits, b15: Bits, v: Word)
    requires IsSchedule(w) && 16 <= t < 64
    requires w[t - 2] == b2 as nat && w[t - 15] == b15 as nat
    requires v == ((XorBits(RotrBits(b2, 17), RotrBits(b2, 19), ShrBits(b2, 10)) as nat) + w[t - 7]
                   + (XorBits(RotrBits(b15, 7), RotrBits(b15, 18), ShrBits(b15, 3)) as nat) + w[t - 16]) % 0x1_0000_0000
    ensures w[t] == v
  {
    hide Mix, XorBits, RotrBits, ShrBits;
    assert IsNext(w, t);
    NextWord(w[t - 2], w[t - 7], w[t - 15], w[t - 16], b2, b15, v);
  }

  predicate IsRound(r: seq<State>, k: seq<Word>, w: seq<Word>, t: nat)
    requires t < |k| == |w| < |r|
  {
    r[t + 1] == Round(r[t], k[t], w[t])
  }

  predicate IsRun(r: seq<State>, k: seq<Word>, w: seq<Word>) {
    |k| == |w| == 64 && |r| == 65 && forall t: nat :: t < 64 ==> IsRound(r, k, w, t)
  }

  lemma Turn(r: seq<State>, k: seq<Word>, w: seq<Word>, t: nat,
             a: Bits, b: Bits, c: Bits, e: Bits, f: Bits, g: Bits, v: Word, u: Word)
    requires IsRun(r, k, w) && t < 64
    requires r[t].a == a as nat && r[t].b == b as nat && r[t].c == c as nat
    requires r[t].e == e as nat && r[t].f == f as nat && r[t].g == g as nat
    requires v == (FirstSum(e, f, g, r[t].h, k[t], w[t]) + SecondSum(a, b, c)) % 0x1_0000_0000
    requires u == (r[t].d + FirstSum(e, f, g, r[t].h, k[t], w[t])) % 0x1_0000_0000
    ensures r[t + 1] == State(v, r[t].a, r[t].b, r[t].c, u, r[t].e, r[t].f, r[t].g)
  {
    hide Round, FirstSum, SecondSum;
    assert IsRound(r, k, w, t);
    var s := r[t];
    Step(s, k[t], w[t], a, b, c, e, f, g, State(v, s.a, s.b, s.c, u, s.e, s.f, s.g));
  }

  // ── The example: the derived words, then the registers round by round ──

  lemma Words28(w: seq<Word>)
    requires IsSchedule(w)
    requires w[0] == 0x61626380 && w[1] == 0x00000000 && w[2] == 0x00000000 && w[3] == 0x00000000 && w[4] == 0x00000000
    requires w[5] == 0x00000000 && w[6] == 0x00000000 && w[7] == 0x00000000 && w[8] == 0x00000000 && w[9] == 0x00000000
    requires w[10] == 0x00000000 && w[11] == 0x00000000 && w[12] == 0x00000000 && w[13] == 0x00000000
    requires w[14] == 0x00000000 && w[15] == 0x00000018
    ensures w[16] == 0x61626380 && w[17] == 0x000f0000 && w[18] == 0x7da86405 && w[19] == 0x600003c6
    ensures w[20] == 0x3e9d7b78 && w[21] == 0x0183fc00 && w[22] == 0x12dcbfdb && w[23] == 0xe2e2c38e
    ensures w[24] == 0xc8215c1a && w[25] == 0xb73679a2 && w[26] == 0xe5bc3909 && w[27] == 0x32663c5b
  {
    hide IsSchedule, Mix;
    Next(w, 16, 0x00000000, 0x00000000, 0x61626380);
    Next(w, 17, 0x00000018, 0x00000000, 0x000f0000);
    Next(w, 18, 0x61626380, 0x00000000, 0x7da86405);
    Next(w, 19, 0x000f0000, 0x00000000, 0x600003c6);
    Next(w, 20, 0x7da86405, 0x00000000, 0x3e9d7b78);
    Next(w, 21, 0x600003c6, 0x00000000, 0x0183fc00);
    Next(w, 22, 0x3e9d7b78, 0x00000000, 0x12dcbfdb);
    Next(w, 23, 0x0183fc00, 0x00000000, 0xe2e2c38e);
    Next(w, 24, 0x12dcbfdb, 0x00000000, 0xc8215c1a);
    Next(w, 25, 0xe2e2c38e, 0x00000000, 0xb73679a2);
    Next(w, 26, 0xc8215c1a, 0x00000000, 0xe5bc3909);
    Next(w, 27, 0xb73679a2, 0x00000000, 0x32663c5b);
  }

  lemma Words40(w: seq<Word>)
    requires IsSchedule(w)
    requires w[12] == 0x00000000 && w[13] == 0x00000000 && w[14] == 0x00000000 && w[15] == 0x00000018
    requires w[16] == 0x61626380 && w[17] == 0x000f0000 && w[18] == 0x7da86405 && w[19] == 0x600003c6
    requires w[20] == 0x3e9d7b78 && w[21] == 0x0183fc00 && w[22] == 0x12dcbfdb && w[23] == 0xe2e2c38e
    requires w[24] == 0xc8215c1a && w[25] == 0xb73679a2 && w[26] == 0xe5bc3909 && w[27] == 0x32663c5b
    ensures w[28] == 0x9d209d67 && w[29] == 0xec8726cb && w[30] == 0x702138a4 && w[31] == 0xd3b7973b
    ensures w[32] == 0x93f5997f && w[33] == 0x3b68ba73 && w[34] == 0xaff4ffc1 && w[35] == 0xf10a5c62
    ensures w[36] == 0x0a8b3996 && w[37] == 0x72af830a && w[38] == 0x9409e33e && w[39] == 0x24641522
  {
    hide IsSchedule, Mix;
    Next(w, 28, 0xe5bc3909, 0x00000000, 0x9d209d67);
    Next(w, 29, 0x32663c5b, 0x00000000, 0xec8726cb);
    Next(w, 30, 0x9d209d67, 0x00000018, 0x702138a4);
    Next(w, 31, 0xec8726cb, 0x61626380, 0xd3b7973b);
    Next(w, 32, 0x702138a4, 0x000f0000, 0x93f5997f);
    Next(w, 33, 0xd3b7973b, 0x7da86405, 0x3b68ba73);
    Next(w, 34, 0x93f5997f, 0x600003c6, 0xaff4ffc1);
    Next(w, 35, 0x3b68ba73, 0x3e9d7b78, 0xf10a5c62);
    Next(w, 36, 0xaff4ffc1, 0x0183fc00, 0x0a8b3996);
    Next(w, 37, 0xf10a5c62, 0x12dcbfdb, 0x72af830a);
    Next(w, 38, 0x0a8b3996, 0xe2e2c38e, 0x9409e33e);
    Next(w, 39, 0x72af830a, 0xc8215c1a, 0x24641522);
  }

  lemma Words52(w: seq<Word>)
    requires IsSchedule(w)
    requires w[24] == 0xc8215c1a && w[25] == 0xb73679a2 && w[26] == 0xe5bc3909 && w[27] == 0x32663c5b
    requires w[28] == 0x9d209d67 && w[29] == 0xec8726cb && w[30] == 0x702138a4 && w[31] == 0xd3b7973b
    requires w[32] == 0x93f5997f && w[33] == 0x3b68ba73 && w[34] == 0xaff4ffc1 && w[35] == 0xf10a5c62
    requires w[36] == 0x0a8b3996 && w[37] == 0x72af830a && w[38] == 0x9409e33e && w[39] == 0x24641522
    ensures w[40] == 0x9f47bf94 && w[41] == 0xf0a64f5a && w[42] == 0x3e246a79 && w[43] == 0x27333ba3
    ensures w[44] == 0x0c4763f2 && w[45] == 0x840abf27 && w[46] == 0x7a290d5d && w[47] == 0x065c43da
    ensures w[48] == 0xfb3e89cb && w[49] == 0xcc7617db && w[50] == 0xb9e66c34 && w[51] == 0xa9993667
  {
    hide IsSchedule, Mix;
    Next(w, 40, 0x9409e33e, 0xb73679a2, 0x9f47bf94);
    Next(w, 41, 0x24641522, 0xe5bc3909, 0xf0a64f5a);
    Next(w, 42, 0x9f47bf94, 0x32663c5b, 0x3e246a79);
    Next(w, 43, 0xf0a64f5a, 0x9d209d67, 0x27333ba3);
    Next(w, 44, 0x3e246a79, 0xec8726cb, 0x0c4763f2);
    Next(w, 45, 0x27333ba3, 0x702138a4, 0x840abf27);
    Next(w, 46, 0x0c4763f2, 0xd3b7973b, 0x7a290d5d);
    Next(w, 47, 0x840abf27, 0x93f5997f, 0x065c43da);
    Next(w, 48, 0x7a290d5d, 0x3b68ba73, 0xfb3e89cb);
    Next(w, 49, 0x065c43da, 0xaff4ffc1, 0xcc7617db);
    Next(w, 50, 0xfb3e89cb, 0xf10a5c62, 0xb9e66c34);
    Next(w, 51, 0xcc7617db, 0x0a8b3996, 0xa9993667);
  }

  lemma Words64(w: seq<Word>)
    requires IsSchedule(w)
    requires w[36] == 0x0a8b3996 && w[37] == 0x72af830a && w[38] == 0x9409e33e && w[39] == 0x24641522
    requires w[40] == 0x9f47bf94 && w[41] == 0xf0a64f5a && w[42] == 0x3e246a79 && w[43] == 0x27333ba3
    requires w[44] == 0x0c4763f2 && w[45] == 0x840abf27 && w[46] == 0x7a290d5d && w[47] == 0x065c43da
    requires w[48] == 0xfb3e89cb && w[49] == 0xcc7617db && w[50] == 0xb9e66c34 && w[51] == 0xa9993667
    ensures w[52] == 0x84badedd && w[53] == 0xc21462bc && w[54] == 0x1487472c && w[55] == 0xb20f7a99
    ensures w[56] == 0xef57b9cd && w[57] == 0xebe6b238 && w[58] == 0x9fe3095e && w[59] == 0x78bc8d4b
    ensures w[60] == 0xa43fcf15 && w[61] == 0x668b2ff8 && w[62] == 0xeeaba2cc && w[63] == 0x12b1edeb
  {
    hide IsSchedule, Mix;
    Next(w, 52, 0xb9e66c34, 0x72af830a, 0x84badedd);
    Next(w, 53, 0xa9993667, 0x9409e33e, 0xc21462bc);
    Next(w, 54, 0x84badedd, 0x24641522, 0x1487472c);
    Next(w, 55, 0xc21462bc, 0x9f47bf94, 0xb20f7a99);
    Next(w, 56, 0x1487472c, 0xf0a64f5a, 0xef57b9cd);
    Next(w, 57, 0xb20f7a99, 0x3e246a79, 0xebe6b238);
    Next(w, 58, 0xef57b9cd, 0x27333ba3, 0x9fe3095e);
    Next(w, 59, 0xebe6b238, 0x0c4763f2, 0x78bc8d4b);
    Next(w, 60, 0x9fe3095e, 0x840abf27, 0xa43fcf15);
    Next(w, 61, 0x78bc8d4b, 0x7a290d5d, 0x668b2ff8);
    Next(w, 62, 0xa43fcf15, 0x065c43da, 0xeeaba2cc);
    Next(w, 63, 0x668b2ff8, 0xfb3e89cb, 0x12b1edeb);
  }

  lemma Constants16(k: seq<Word>)
    requires k == K
    ensures k[0] == 0x428a2f98 && k[1] == 0x71374491 && k[2] == 0xb5c0fbcf && k[3] == 0xe9b5dba5 && k[4] == 0x3956c25b
    ensures k[5] == 0x59f111f1 && k[6] == 0x923f82a4 && k[7] == 0xab1c5ed5 && k[8] == 0xd807aa98 && k[9] == 0x12835b01
    ensures k[10] == 0x243185be && k[11] == 0x550c7dc3 && k[12] == 0x72be5d74 && k[13] == 0x80deb1fe
    ensures k[14] == 0x9bdc06a7 && k[15] == 0xc19bf174
  {
  }

  lemma Constants32(k: seq<Word>)
    requires k == K
    ensures k[16] == 0xe49b69c1 && k[17] == 0xefbe4786 && k[18] == 0x0fc19dc6 && k[19] == 0x240ca1cc
    ensures k[20] == 0x2de92c6f && k[21] == 0x4a7484aa && k[22] == 0x5cb0a9dc && k[23] == 0x76f988da
    ensures k[24] == 0x983e5152 && k[25] == 0xa831c66d && k[26] == 0xb00327c8 && k[27] == 0xbf597fc7
    ensures k[28] == 0xc6e00bf3 && k[29] == 0xd5a79147 && k[30] == 0x06ca6351 && k[31] == 0x14292967
  {
  }

  lemma Constants48(k: seq<Word>)
    requires k == K
    ensures k[32] == 0x27b70a85 && k[33] == 0x2e1b2138 && k[34] == 0x4d2c6dfc && k[35] == 0x53380d13
    ensures k[36] == 0x650a7354 && k[37] == 0x766a0abb && k[38] == 0x81c2c92e && k[39] == 0x92722c85
    ensures k[40] == 0xa2bfe8a1 && k[41] == 0xa81a664b && k[42] == 0xc24b8b70 && k[43] == 0xc76c51a3
    ensures k[44] == 0xd192e819 && k[45] == 0xd6990624 && k[46] == 0xf40e3585 && k[47] == 0x106aa070
  {
  }

  lemma Constants64(k: seq<Word>)
    requires k == K
    ensures k[48] == 0x19a4c116 && k[49] == 0x1e376c08 && k[50] == 0x2748774c && k[51] == 0x34b0bcb5
    ensures k[52] == 0x391c0cb3 && k[53] == 0x4ed8aa4a && k[54] == 0x5b9cca4f && k[55] == 0x682e6ff3
    ensures k[56] == 0x748f82ee && k[57] == 0x78a5636f && k[58] == 0x84c87814 && k[59] == 0x8cc70208
    ensures k[60] == 0x90befffa && k[61] == 0xa4506ceb && k[62] == 0xbef9a3f7 && k[63] == 0xc67178f2
  {
  }

  lemma Rounds8(r: seq<State>, k: seq<Word>, w: seq<Word>)
    requires IsRun(r, k, w)
    requires r[0]
          == State(0x6a09e667, 0xbb67ae85, 0x3c6ef372, 0xa54ff53a, 0x510e527f, 0x9b05688c, 0x1f83d9ab, 0x5be0cd19)
    requires k[0] == 0x428a2f98 && k[1] == 0x71374491 && k[2] == 0xb5c0fbcf && k[3] == 0xe9b5dba5 && k[4] == 0x3956c25b
    requires k[5] == 0x59f111f1 && k[6] == 0x923f82a4 && k[7] == 0xab1c5ed5
    requires w[0] == 0x61626380 && w[1] == 0x00000000 && w[2] == 0x00000000 && w[3] == 0x00000000 && w[4] == 0x00000000
    requires w[5] == 0x00000000 && w[6] == 0x00000000 && w[7] == 0x00000000
    ensures r[8]
          == State(0x85a07b5f, 0xe5030380, 0x2b4209f5, 0x04409a6a, 0x0c657a79, 0x9b27a401, 0x714260ad, 0x43ada245)
  {
    hide IsRun, Round;
    Turn(r, k, w, 0, 0x6a09e667, 0xbb67ae85, 0x3c6ef372, 0x510e527f, 0x9b05688c, 0x1f83d9ab, 0x5d6aebcd, 0xfa2a4622);
    Turn(r, k, w, 1, 0x5d6aebcd, 0x6a09e667, 0xbb67ae85, 0xfa2a4622, 0x510e527f, 0x9b05688c, 0x5a6ad9ad, 0x78ce7989);
    Turn(r, k, w, 2, 0x5a6ad9ad, 0x5d6aebcd, 0x6a09e667, 0x78ce7989, 0xfa2a4622, 0x510e527f, 0xc8c347a7, 0xf92939eb);
    Turn(r, k, w, 3, 0xc8c347a7, 0x5a6ad9ad, 0x5d6aebcd, 0xf92939eb, 0x78ce7989, 0xfa2a4622, 0xd550f666, 0x24e00850);
    Turn(r, k, w, 4, 0xd550f666, 0xc8c347a7, 0x5a6ad9ad, 0x24e00850, 0xf92939eb, 0x78ce7989, 0x04409a6a, 0x43ada245);
    Turn(r, k, w, 5, 0x04409a6a, 0xd550f666, 0xc8c347a7, 0x43ada245, 0x24e00850, 0xf92939eb, 0x2b4209f5, 0x714260ad);
    Turn(r, k, w, 6, 0x2b4209f5, 0x04409a6a, 0xd550f666, 0x714260ad, 0x43ada245, 0x24e00850, 0xe5030380, 0x9b27a401);
    Turn(r, k, w, 7, 0xe5030380, 0x2b4209f5, 0x04409a6a, 0x9b27a401, 0x714260ad, 0x43ada245, 0x85a07b5f, 0x0c657a79);
  }

  lemma Rounds16(r: seq<State>, k: seq<Word>, w: seq<Word>)
    requires IsRun(r, k, w)
    requires r[8]
          == State(0x85a07b5f, 0xe5030380, 0x2b4209f5, 0x04409a6a, 0x0c657a79, 0x9b27a401, 0x714260ad, 0x43ada245)
    requires k[8] == 0xd807aa98 && k[9] == 0x12835b01 && k[10] == 0x243185be && k[11] == 0x550c7dc3
    requires k[12] == 0x72be5d74 && k[13] == 0x80deb1fe && k[14] == 0x9bdc06a7 && k[15] == 0xc19bf174
    requires w[8] == 0x00000000 && w[9] == 0x00000000 && w[10] == 0x00000000 && w[11] == 0x00000000
    requires w[12] == 0x00000000 && w[13] == 0x00000000 && w[14] == 0x00000000 && w[15] == 0x00000018
    ensures r[16]
          == State(0xb0fa238e, 0xc0645fde, 0xd932eb16, 0x87912990, 0x07590dcd, 0x0b92f20c, 0x745a48de, 0x1e578218)
  {
    hide IsRun, Round;
    Turn(r, k, w, 8, 0x85a07b5f, 0xe5030380, 0x2b4209f5, 0x0c657a79, 0x9b27a401, 0x714260ad, 0x8e04ecb9, 0x32ca2d8c);
    Turn(r, k, w, 9, 0x8e04ecb9, 0x85a07b5f, 0xe5030380, 0x32ca2d8c, 0x0c657a79, 0x9b27a401, 0x8c87346b, 0x1cc92596);
    Turn(r, k, w, 10, 0x8c87346b, 0x8e04ecb9, 0x85a07b5f, 0x1cc92596, 0x32ca2d8c, 0x0c657a79, 0x4798a3f4, 0x436b23e8);
    Turn(r, k, w, 11, 0x4798a3f4, 0x8c87346b, 0x8e04ecb9, 0x436b23e8, 0x1cc92596, 0x32ca2d8c, 0xf71fc5a9, 0x816fd6e9);
    Turn(r, k, w, 12, 0xf71fc5a9, 0x4798a3f4, 0x8c87346b, 0x816fd6e9, 0x436b23e8, 0x1cc92596, 0x87912990, 0x1e578218);
    Turn(r, k, w, 13, 0x87912990, 0xf71fc5a9, 0x4798a3f4, 0x1e578218, 0x816fd6e9, 0x436b23e8, 0xd932eb16, 0x745a48de);
    Turn(r, k, w, 14, 0xd932eb16, 0x87912990, 0xf71fc5a9, 0x745a48de, 0x1e578218, 0x816fd6e9, 0xc0645fde, 0x0b92f20c);
    Turn(r, k, w, 15, 0xc0645fde, 0xd932eb16, 0x87912990, 0x0b92f20c, 0x745a48de, 0x1e578218, 0xb0fa238e, 0x07590dcd);
  }

  lemma Rounds24(r: seq<State>, k: seq<Word>, w: seq<Word>)
    requires IsRun(r, k, w)
    requires r[16]
          == State(0xb0fa238e, 0xc0645fde, 0xd932eb16, 0x87912990, 0x07590dcd, 0x0b92f20c, 0x745a48de, 0x1e578218)
    requires k[16] == 0xe49b69c1 && k[17] == 0xefbe4786 && k[18] == 0x0fc19dc6 && k[19] == 0x240ca1cc
    requires k[20] == 0x2de92c6f && k[21] == 0x4a7484aa && k[22] == 0x5cb0a9dc && k[23] == 0x76f988da
    requires w[16] == 0x61626380 && w[17] == 0x000f0000 && w[18] == 0x7da86405 && w[19] == 0x600003c6
    requires w[20] == 0x3e9d7b78 && w[21] == 0x0183fc00 && w[22] == 0x12dcbfdb && w[23] == 0xe2e2c38e
    ensures r[24]
          == State(0xc5d53d8d, 0xa7a3623f, 0xc2606d6d, 0x9dc68b63, 0xaa47c347, 0x49f5114a, 0xe1257970, 0x8ada8930)
  {
    hide IsRun, Round;
    Turn(r, k, w, 16, 0xb0fa238e, 0xc0645fde, 0xd932eb16, 0x07590dcd, 0x0b92f20c, 0x745a48de, 0x21da9a9b, 0x8034229c);
    Turn(r, k, w, 17, 0x21da9a9b, 0xb0fa238e, 0xc0645fde, 0x8034229c, 0x07590dcd, 0x0b92f20c, 0xc2fbd9d1, 0x846ee454);
    Turn(r, k, w, 18, 0xc2fbd9d1, 0x21da9a9b, 0xb0fa238e, 0x846ee454, 0x8034229c, 0x07590dcd, 0xfe777bbf, 0xcc899961);
    Turn(r, k, w, 19, 0xfe777bbf, 0xc2fbd9d1, 0x21da9a9b, 0xcc899961, 0x846ee454, 0x8034229c, 0xe1f20c33, 0xb0638179);
    Turn(r, k, w, 20, 0xe1f20c33, 0xfe777bbf, 0xc2fbd9d1, 0xb0638179, 0xcc899961, 0x846ee454, 0x9dc68b63, 0x8ada8930);
    Turn(r, k, w, 21, 0x9dc68b63, 0xe1f20c33, 0xfe777bbf, 0x8ada8930, 0xb0638179, 0xcc899961, 0xc2606d6d, 0xe1257970);
    Turn(r, k, w, 22, 0xc2606d6d, 0x9dc68b63, 0xe1f20c33, 0xe1257970, 0x8ada8930, 0xb0638179, 0xa7a3623f, 0x49f5114a);
    Turn(r, k, w, 23, 0xa7a3623f, 0xc2606d6d, 0x9dc68b63, 0x49f5114a, 0xe1257970, 0x8ada8930, 0xc5d53d8d, 0xaa47c347);
  }

  lemma Rounds32(r: seq<State>, k: seq<Word>, w: seq<Word>)
    requires IsRun(r, k, w)
    requires r[24]
          == State(0xc5d53d8d, 0xa7a3623f, 0xc2606d6d, 0x9dc68b63, 0xaa47c347, 0x49f5114a, 0xe1257970, 0x8ada8930)
    requires k[24] == 0x983e5152 && k[25] == 0xa831c66d && k[26] == 0xb00327c8 && k[27] == 0xbf597fc7
    requires k[28] == 0xc6e00bf3 && k[29] == 0xd5a79147 && k[30] == 0x06ca6351 && k[31] == 0x14292967
    requires w[24] == 0xc8215c1a && w[25] == 0xb73679a2 && w[26] == 0xe5bc3909 && w[27] == 0x32663c5b
    requires w[28] == 0x9d209d67 && w[29] == 0xec8726cb && w[30] == 0x702138a4 && w[31] == 0xd3b7973b
    ensures r[32]
          == State(0x73b33bf5, 0xea992a22, 0xa0060b30, 0x363482c9, 0xba591112, 0x0109ab3a, 0xade79437, 0x6112a3b7)
  {
    hide IsRun, Round;
    Turn(r, k, w, 24, 0xc5d53d8d, 0xa7a3623f, 0xc2606d6d, 0xaa47c347, 0x49f5114a, 0xe1257970, 0x1c2c2838, 0x2823ef91);
    Turn(r, k, w, 25, 0x1c2c2838, 0xc5d53d8d, 0xa7a3623f, 0x2823ef91, 0xaa47c347, 0x49f5114a, 0xcde8037d, 0x14383d8e);
    Turn(r, k, w, 26, 0xcde8037d, 0x1c2c2838, 0xc5d53d8d, 0x14383d8e, 0x2823ef91, 0xaa47c347, 0xb62ec4bc, 0xc74c6516);
    Turn(r, k, w, 27, 0xb62ec4bc, 0xcde8037d, 0x1c2c2838, 0xc74c6516, 0x14383d8e, 0x2823ef91, 0x77d37528, 0xedffbff8);
    Turn(r, k, w, 28, 0x77d37528, 0xb62ec4bc, 0xcde8037d, 0xedffbff8, 0xc74c6516, 0x14383d8e, 0x363482c9, 0x6112a3b7);
    Turn(r, k, w, 29, 0x363482c9, 0x77d37528, 0xb62ec4bc, 0x6112a3b7, 0xedffbff8, 0xc74c6516, 0xa0060b30, 0xade79437);
    Turn(r, k, w, 30, 0xa0060b30, 0x363482c9, 0x77d37528, 0xade79437, 0x6112a3b7, 0xedffbff8, 0xea992a22, 0x0109ab3a);
    Turn(r, k, w, 31, 0xea992a22, 0xa0060b30, 0x363482c9, 0x0109ab3a, 0xade79437, 0x6112a3b7, 0x73b33bf5, 0xba591112);
  }

  lemma Rounds40(r: seq<State>, k: seq<Word>, w: seq<Word>)
    requires IsRun(r, k, w)
    requires r[32]
          == State(0x73b33bf5, 0xea992a22, 0xa0060b30, 0x363482c9, 0xba591112, 0x0109ab3a, 0xade79437, 0x6112a3b7)
    requires k[32] == 0x27b70a85 && k[33] == 0x2e1b2138 && k[34] == 0x4d2c6dfc && k[35] == 0x53380d13
    requires k[36] == 0x650a7354 && k[37] == 0x766a0abb && k[38] == 0x81c2c92e && k[39] == 0x92722c85
    requires w[32] == 0x93f5997f && w[33] == 0x3b68ba73 && w[34] == 0xaff4ffc1 && w[35] == 0xf10a5c62
    requires w[36] == 0x0a8b3996 && w[37] == 0x72af830a && w[38] == 0x9409e33e && w[39] == 0x24641522
    ensures r[40]
          == State(0x79ea687a, 0x6dc57a8a, 0x34df1604, 0x41a65cb1, 0x1efbc0a0, 0xf0781bc8, 0xa507a53d, 0x0772a26b)
  {
    hide IsRun, Round;
    Turn(r, k, w, 32, 0x73b33bf5, 0xea992a22, 0xa0060b30, 0xba591112, 0x0109ab3a, 0xade79437, 0x98e12507, 0x9cd9f5f6);
    Turn(r, k, w, 33, 0x98e12507, 0x73b33bf5, 0xea992a22, 0x9cd9f5f6, 0xba591112, 0x0109ab3a, 0xfe604df5, 0x59249dd3);
    Turn(r, k, w, 34, 0xfe604df5, 0x98e12507, 0x73b33bf5, 0x59249dd3, 0x9cd9f5f6, 0xba591112, 0xa9a7738c, 0x085f3833);
    Turn(r, k, w, 35, 0xa9a7738c, 0xfe604df5, 0x98e12507, 0x085f3833, 0x59249dd3, 0x9cd9f5f6, 0x65a0cfe4, 0xf4b002d6);
    Turn(r, k, w, 36, 0x65a0cfe4, 0xa9a7738c, 0xfe604df5, 0xf4b002d6, 0x085f3833, 0x59249dd3, 0x41a65cb1, 0x0772a26b);
    Turn(r, k, w, 37, 0x41a65cb1, 0x65a0cfe4, 0xa9a7738c, 0x0772a26b, 0xf4b002d6, 0x085f3833, 0x34df1604, 0xa507a53d);
    Turn(r, k, w, 38, 0x34df1604, 0x41a65cb1, 0x65a0cfe4, 0xa507a53d, 0x0772a26b, 0xf4b002d6, 0x6dc57a8a, 0xf0781bc8);
    Turn(r, k, w, 39, 0x6dc57a8a, 0x34df1604, 0x41a65cb1, 0xf0781bc8, 0xa507a53d, 0x0772a26b, 0x79ea687a, 0x1efbc0a0);
  }

  lemma Rounds48(r: seq<State>, k: seq<Word>, w: seq<Word>)
    requires IsRun(r, k, w)
    requires r[40]
          == State(0x79ea687a, 0x6dc57a8a, 0x34df1604, 0x41a65cb1, 0x1efbc0a0, 0xf0781bc8, 0xa507a53d, 0x0772a26b)
    requires k[40] == 0xa2bfe8a1 && k[41] == 0xa81a664b && k[42] == 0xc24b8b70 && k[43] == 0xc76c51a3
    requires k[44] == 0xd192e819 && k[45] == 0xd6990624 && k[46] == 0xf40e3585 && k[47] == 0x106aa070
    requires w[40] == 0x9f47bf94 && w[41] == 0xf0a64f5a && w[42] == 0x3e246a79 && w[43] == 0x27333ba3
    requires w[44] == 0x0c4763f2 && w[45] == 0x840abf27 && w[46] == 0x7a290d5d && w[47] == 0x065c43da
    ensures r[48]
          == State(0x4172328d, 0xa14c14b0, 0x72ab4b91, 0x26628815, 0xfecf0bc6, 0xd57b94a9, 0xb7755da1, 0xa80f11f0)
  {
    hide IsRun, Round;
    Turn(r, k, w, 40, 0x79ea687a, 0x6dc57a8a, 0x34df1604, 0x1efbc0a0, 0xf0781bc8, 0xa507a53d, 0xd6670766, 0x26352d63);
    Turn(r, k, w, 41, 0xd6670766, 0x79ea687a, 0x6dc57a8a, 0x26352d63, 0x1efbc0a0, 0xf0781bc8, 0xdf46652f, 0x838b2711);
    Turn(r, k, w, 42, 0xdf46652f, 0xd6670766, 0x79ea687a, 0x838b2711, 0x26352d63, 0x1efbc0a0, 0x17aa0dfe, 0xdecd4715);
    Turn(r, k, w, 43, 0x17aa0dfe, 0xdf46652f, 0xd6670766, 0xdecd4715, 0x838b2711, 0x26352d63, 0x9d4baf93, 0xfda24c2e);
    Turn(r, k, w, 44, 0x9d4baf93, 0x17aa0dfe, 0xdf46652f, 0xfda24c2e, 0xdecd4715, 0x838b2711, 0x26628815, 0xa80f11f0);
    Turn(r, k, w, 45, 0x26628815, 0x9d4baf93, 0x17aa0dfe, 0xa80f11f0, 0xfda24c2e, 0xdecd4715, 0x72ab4b91, 0xb7755da1);
    Turn(r, k, w, 46, 0x72ab4b91, 0x26628815, 0x9d4baf93, 0xb7755da1, 0xa80f11f0, 0xfda24c2e, 0xa14c14b0, 0xd57b94a9);
    Turn(r, k, w, 47, 0xa14c14b0, 0x72ab4b91, 0x26628815, 0xd57b94a9, 0xb7755da1, 0xa80f11f0, 0x4172328d, 0xfecf0bc6);
  }

  lemma Rounds56(r: seq<State>, k: seq<Word>, w: seq<Word>)
    requires IsRun(r, k, w)
    requires r[48]
          == State(0x4172328d, 0xa14c14b0, 0x72ab4b91, 0x26628815, 0xfecf0bc6, 0xd57b94a9, 0xb7755da1, 0xa80f11f0)
    requires k[48] == 0x19a4c116 && k[49] == 0x1e376c08 && k[50] == 0x2748774c && k[51] == 0x34b0bcb5
    requires k[52] == 0x391c0cb3 && k[53] == 0x4ed8aa4a && k[54] == 0x5b9cca4f && k[55] == 0x682e6ff3
    requires w[48] == 0xfb3e89cb && w[49] == 0xcc7617db && w[50] == 0xb9e66c34 && w[51] == 0xa9993667
    requires w[52] == 0x84badedd && w[53] == 0xc21462bc && w[54] == 0x1487472c && w[55] == 0xb20f7a99
    ensures r[56]
          == State(0x38cc9913, 0x3ec45cdb, 0xf5702fdb, 0x101fd28f, 0x54cb266b, 0xe50e1b4f, 0x9f4787c3, 0x529e7d00)
  {
    hide IsRun, Round;
    Turn(r, k, w, 48, 0x4172328d, 0xa14c14b0, 0x72ab4b91, 0xfecf0bc6, 0xd57b94a9, 0xb7755da1, 0x05757ceb, 0xbd714038);
    Turn(r, k, w, 49, 0x05757ceb, 0x4172328d, 0xa14c14b0, 0xbd714038, 0xfecf0bc6, 0xd57b94a9, 0xf11bfaa8, 0x6e5c390c);
    Turn(r, k, w, 50, 0xf11bfaa8, 0x05757ceb, 0x4172328d, 0x6e5c390c, 0xbd714038, 0xfecf0bc6, 0x7a0508a1, 0x52f1ccf7);
    Turn(r, k, w, 51, 0x7a0508a1, 0xf11bfaa8, 0x05757ceb, 0x52f1ccf7, 0x6e5c390c, 0xbd714038, 0x886e7a22, 0x49231c1e);
    Turn(r, k, w, 52, 0x886e7a22, 0x7a0508a1, 0xf11bfaa8, 0x49231c1e, 0x52f1ccf7, 0x6e5c390c, 0x101fd28f, 0x529e7d00);
    Turn(r, k, w, 53, 0x101fd28f, 0x886e7a22, 0x7a0508a1, 0x529e7d00, 0x49231c1e, 0x52f1ccf7, 0xf5702fdb, 0x9f4787c3);
    Turn(r, k, w, 54, 0xf5702fdb, 0x101fd28f, 0x886e7a22, 0x9f4787c3, 0x529e7d00, 0x49231c1e, 0x3ec45cdb, 0xe50e1b4f);
    Turn(r, k, w, 55, 0x3ec45cdb, 0xf5702fdb, 0x101fd28f, 0xe50e1b4f, 0x9f4787c3, 0x529e7d00, 0x38cc9913, 0x54cb266b);
  }

  lemma Rounds64(r: seq<State>, k: seq<Word>, w: seq<Word>)
    requires IsRun(r, k, w)
    requires r[56]
          == State(0x38cc9913, 0x3ec45cdb, 0xf5702fdb, 0x101fd28f, 0x54cb266b, 0xe50e1b4f, 0x9f4787c3, 0x529e7d00)
    requires k[56] == 0x748f82ee && k[57] == 0x78a5636f && k[58] == 0x84c87814 && k[59] == 0x8cc70208
    requires k[60] == 0x90befffa && k[61] == 0xa4506ceb && k[62] == 0xbef9a3f7 && k[63] == 0xc67178f2
    requires w[56] == 0xef57b9cd && w[57] == 0xebe6b238 && w[58] == 0x9fe3095e && w[59] == 0x78bc8d4b
    requires w[60] == 0xa43fcf15 && w[61] == 0x668b2ff8 && w[62] == 0xeeaba2cc && w[63] == 0x12b1edeb
    ensures r[64]
          == State(0x506e3058, 0xd39a2165, 0x04d24d6c, 0xb85e2ce9, 0x5ef50f24, 0xfb121210, 0x948d25b6, 0x961f4894)
  {
    hide IsRun, Round;
    Turn(r, k, w, 56, 0x38cc9913, 0x3ec45cdb, 0xf5702fdb, 0x54cb266b, 0xe50e1b4f, 0x9f4787c3, 0xfcd1887b, 0x9b5e906c);
    Turn(r, k, w, 57, 0xfcd1887b, 0x38cc9913, 0x3ec45cdb, 0x9b5e906c, 0x54cb266b, 0xe50e1b4f, 0xc062d46f, 0x7e44008e);
    Turn(r, k, w, 58, 0xc062d46f, 0xfcd1887b, 0x38cc9913, 0x7e44008e, 0x9b5e906c, 0x54cb266b, 0xffb70472, 0x6d83bfc6);
    Turn(r, k, w, 59, 0xffb70472, 0xc062d46f, 0xfcd1887b, 0x6d83bfc6, 0x7e44008e, 0x9b5e906c, 0xb6ae8fff, 0xb21bad3d);
    Turn(r, k, w, 60, 0xb6ae8fff, 0xffb70472, 0xc062d46f, 0xb21bad3d, 0x6d83bfc6, 0x7e44008e, 0xb85e2ce9, 0x961f4894);
    Turn(r, k, w, 61, 0xb85e2ce9, 0xb6ae8fff, 0xffb70472, 0x961f4894, 0xb21bad3d, 0x6d83bfc6, 0x04d24d6c, 0x948d25b6);
    Turn(r, k, w, 62, 0x04d24d6c, 0xb85e2ce9, 0xb6ae8fff, 0x948d25b6, 0x961f4894, 0xb21bad3d, 0xd39a2165, 0xfb121210);
    Turn(r, k, w, 63, 0xd39a2165, 0x04d24d6c, 0xb85e2ce9, 0xfb121210, 0x948d25b6, 0x961f4894, 0x506e3058, 0x5ef50f24);
  }

  lemma PowerAtLeast(base: nat, n: nat)
    requires base > 24 && n > 0
    ensures Positional.Power(base, n) > 24
  {
    Positional.PowerPositive(base, n - 1);
  }

  lemma LengthBytes()
    ensures Length64(24) == [0, 0, 0, 0, 0, 0, 0, 24]
  {
    forall i | 0 <= i < 8 ensures Length64(24)[i] == if i < 7 then 0 else 24 {
      Positional.DigitAt(24, 256, 8, i);
      if i < 7 {
        PowerAtLeast(256, 7 - i);
      }
    }
    hide Length64, Positional.Power;
  }

  /** The message of three bytes fills one block. */
  lemma AbcPadded(p: seq<Byte>)
    requires p == Pad([0x61, 0x62, 0x63])
    ensures |p| == 64 && p[0] == 0x61 && p[1] == 0x62 && p[2] == 0x63 && p[3] == 0x80 && p[63] == 24
    ensures forall i :: 4 <= i < 63 ==> p[i] == 0
  {
    LengthBytes();
    assert ZeroCount(3) == 52;
    hide Length64, ZeroCount;
    assert p == [0x61, 0x62, 0x63] + [0x80] + Zeros(52) + [0, 0, 0, 0, 0, 0, 0, 24];
  }

  lemma Schedules(block: Block, w: seq<Word>)
    requires w == Schedule(block, 64)
    ensures IsSchedule(w) && forall t :: 0 <= t < 16 ==> w[t] == BlockWord(block, t)
  {
    hide Schedule, Mix, BlockWord;
    forall t | 0 <= t < 64 ensures if t < 16 then w[t] == BlockWord(block, t) else IsNext(w, t) {
      ScheduleRecurrence(block, 64, t);
    }
  }

  lemma Runs(k: Constants, w: seq<Word>) returns (r: seq<State>)
    requires |w| == 64
    ensures IsRun(r, k, w) && r[0] == H0 && r[64] == Rounds(H0, k, w, 64)
  {
    hide Round, K, H0;
    r := seq(65, t requires 0 <= t < 65 => Rounds(H0, k, w, t));
    forall t: nat | t < 64 ensures IsRound(r, k, w, t) {
      assert r[t] == Rounds(H0, k, w, t);
    }
  }

  /** After 64 rounds, if the first words are those of the message. */
  lemma Final(r: seq<State>, k: seq<Word>, w: seq<Word>)
    requires k == K && IsRun(r, k, w) && IsSchedule(w) && r[0] == H0
    requires w[0] == 0x61626380 && w[15] == 24 && forall t :: 1 <= t < 15 ==> w[t] == 0
    ensures r[64]
          == State(0x506e3058, 0xd39a2165, 0x04d24d6c, 0xb85e2ce9, 0x5ef50f24, 0xfb121210, 0x948d25b6, 0x961f4894)
  {
    hide IsRun, IsSchedule, K;
    Words28(w);
    Words40(w);
    Words52(w);
    Words64(w);
    Constants16(k);
    Constants32(k);
    Constants48(k);
    Constants64(k);
    Rounds8(r, k, w);
    Rounds16(r, k, w);
    Rounds24(r, k, w);
    Rounds32(r, k, w);
    Rounds40(r, k, w);
    Rounds48(r, k, w);
    Rounds56(r, k, w);
    Rounds64(r, k, w);
  }

  lemma FirstWords(block: Block, w: seq<Word>)
    requires block == Pad([0x61, 0x62, 0x63]) && |w| == 64
    requires forall t :: 0 <= t < 16 ==> w[t] == BlockWord(block, t)
    ensures w[0] == 0x61626380 && w[15] == 24 && forall t :: 1 <= t < 15 ==> w[t] == 0
  {
    AbcPadded(block);
    hide Pad;
    assert BlockWord(block, 0) == 0x61626380 && BlockWord(block, 15) == 24;
    forall t | 1 <= t < 15 ensures BlockWord(block, t) == 0 {
    }
    hide BlockWord;
  }

  lemma OneBlock(s: State, k: Constants, block: Block)
    ensures Hash(s, k, block) == Compress(s, k, block)
  {
    hide Compress;
    assert block[..64] == block && block[64..] == [];
    assert Hash(Compress(s, k, block), k, []) == Compress(s, k, block);
  }

  lemma Added()
    ensures Sum(H0,
                State(0x506e3058, 0xd39a2165, 0x04d24d6c, 0xb85e2ce9, 0x5ef50f24, 0xfb121210, 0x948d25b6, 0x961f4894))
         == State(0xba7816bf, 0x8f01cfea, 0x414140de, 0x5dae2223, 0xb00361a3, 0x96177a9c, 0xb410ff61, 0xf20015ad)
  {
  }

  lemma HashOfAbc(k: Constants)
    requires k == K
    ensures Hash(H0, k, Pad([0x61, 0x62, 0x63]))
         == State(0xba7816bf, 0x8f01cfea, 0x414140de, 0x5dae2223, 0xb00361a3, 0x96177a9c, 0xb410ff61, 0xf20015ad)
  {
    hide Pad, Schedule, Mix, BlockWord, Rounds, Sum, K, H0, Hash, IsRun, IsSchedule;
    var block := Pad([0x61, 0x62, 0x63]);
    AbcPadded(block);
    var w := Schedule(block, 64);
    Schedules(block, w);
    FirstWords(block, w);
    var r := Runs(k, w);
    Final(r, k, w);
    OneBlock(H0, k, block);
    Added();
  }

  /** What the first `n` digits stand for. */
  function Read(text: string, n: nat): nat
    requires n <= |text|
  {
    if n == 0 then 0 else Read(text, n - 1) * 16 + DigitOf(text[n - 1])
  }

  lemma {:induction false} DigitsRead(text: string, n: nat)
    requires n <= |text| && forall i :: 0 <= i < n ==> DigitOf(text[i]) < 16
    ensures Positional.Digits(Read(text, n), 16, n) == seq(n, i requires 0 <= i < n => DigitOf(text[i]))
  {
    if n > 0 {
      DigitsRead(text, n - 1);
      var front, d := Read(text, n - 1), DigitOf(text[n - 1]);
      assert (front * 16 + d) / 16 == front && (front * 16 + d) % 16 == d;
    }
  }

  function Four(text: string): nat
    requires |text| == 4
  {
    DigitOf(text[0]) * 0x1000 + DigitOf(text[1]) * 0x100 + DigitOf(text[2]) * 0x10 + DigitOf(text[3])
  }

  lemma FourRead(text: string, n: nat)
    requires n + 4 <= |text|
    ensures Read(text, n + 4) == Read(text, n) * 0x1_0000 + Four(text[n..n + 4])
  {
    hide DigitOf;
    assert Read(text, n + 2) == Read(text, n) * 0x100 + DigitOf(text[n]) * 0x10 + DigitOf(text[n + 1]);
  }

  /** Eight hexadecimal digits are what the word they stand for is written as. */
  lemma WrittenAs(w: Word, text: string)
    requires |text| == 8 && forall i :: 0 <= i < 8 ==> DigitOf(text[i]) < 16 && HexDigit(DigitOf(text[i])) == text[i]
    requires w == Four(text[..4]) * 0x1_0000 + Four(text[4..])
    ensures HexWord(w, 8) == text
  {
    DigitsRead(text, 8);
    FourRead(text, 0);
    FourRead(text, 4);
    assert text[0..4] == text[..4] && text[4..8] == text[4..];
    hide HexDigit, DigitOf, Four, Positional.Digits;
  }

  lemma Written1()
    ensures HexWord(0xba7816bf, 8) == "ba7816bf"
    ensures HexWord(0x8f01cfea, 8) == "8f01cfea"
  {
    hide HexWord;
    WrittenAs(0xba7816bf, "ba7816bf");
    WrittenAs(0x8f01cfea, "8f01cfea");
  }

  lemma Written2()
    ensures HexWord(0x414140de, 8) == "414140de"
    ensures HexWord(0x5dae2223, 8) == "5dae2223"
  {
    hide HexWord;
    WrittenAs(0x414140de, "414140de");
    WrittenAs(0x5dae2223, "5dae2223");
  }

  lemma Written3()
    ensures HexWord(0xb00361a3, 8) == "b00361a3"
    ensures HexWord(0x96177a9c, 8) == "96177a9c"
  {
    hide HexWord;
    WrittenAs(0xb00361a3, "b00361a3");
    WrittenAs(0x96177a9c, "96177a9c");
  }

  lemma Written4()
    ensures HexWord(0xb410ff61, 8) == "b410ff61"
    ensures HexWord(0xf20015ad, 8) == "f20015ad"
  {
    hide HexWord;
    WrittenAs(0xb410ff61, "b410ff61");
    WrittenAs(0xf20015ad, "f20015ad");
  }

  /** The digest of the message `abc`. */
  lemma DigestOfAbc()
    ensures HexText(Hash(H0, K, Pad([0x61, 0x62, 0x63])))
         == "ba7816bf" + "8f01cfea" + "414140de" + "5dae2223" + "b00361a3" + "96177a9c" + "b410ff61" + "f20015ad"
  {
    assert |K| == 64;
    hide HexWord, Hash, Pad, K, H0;
    HashOfAbc(K);
    Written1();
    Written2();
    Written3();
    Written4();
  }
}

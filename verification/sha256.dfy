/** The build script's SHA-256, refined against the functions of FIPS 180-4. */
module Sha256 {
  import Positional
  import opened Sha256Padding
  import opened WordBits

  /** A `u32`: additions wrap, the other operations work on its bits. */
  type Word = w: nat | w < 0x1_0000_0000

  // ── Section 4.1.2: functions ──────────────────────────────────────────

  function Plus(x: Word, y: Word): Word {
    (x + y) % 0x1_0000_0000
  }

  function Minus(x: Word, y: Word): Word {
    (x + 0x1_0000_0000 - y) % 0x1_0000_0000
  }

  function Rotr(x: Word, n: Amount): Word {
    RotrBits(x as Bits, n) as nat
  }

  function Shr(x: Word, n: Amount): Word {
    ShrBits(x as Bits, n) as nat
  }

  function Xor(x: Word, y: Word, z: Word): Word {
    XorBits(x as Bits, y as Bits, z as Bits) as nat
  }

  function Ch(x: Word, y: Word, z: Word): Word {
    ChBits(x as Bits, y as Bits, z as Bits) as nat
  }

  function Maj(x: Word, y: Word, z: Word): Word {
    MajBits(x as Bits, y as Bits, z as Bits) as nat
  }

  function BigSigma0(x: Word): Word {
    Xor(Rotr(x, 2), Rotr(x, 13), Rotr(x, 22))
  }

  function BigSigma1(x: Word): Word {
    Xor(Rotr(x, 6), Rotr(x, 11), Rotr(x, 25))
  }

  function SmallSigma0(x: Word): Word {
    Xor(Rotr(x, 7), Rotr(x, 18), Shr(x, 3))
  }

  function SmallSigma1(x: Word): Word {
    Xor(Rotr(x, 17), Rotr(x, 19), Shr(x, 10))
  }

  // ── Sections 4.2.2 and 5.3.3: constants ───────────────────────────────

  const K: seq<Word> :=
    [0x428a2f98, 0x71374491, 0xb5c0fbcf, 0xe9b5dba5, 0x3956c25b, 0x59f111f1, 0x923f82a4, 0xab1c5ed5]
    + [0xd807aa98, 0x12835b01, 0x243185be, 0x550c7dc3, 0x72be5d74, 0x80deb1fe, 0x9bdc06a7, 0xc19bf174]
    + [0xe49b69c1, 0xefbe4786, 0x0fc19dc6, 0x240ca1cc, 0x2de92c6f, 0x4a7484aa, 0x5cb0a9dc, 0x76f988da]
    + [0x983e5152, 0xa831c66d, 0xb00327c8, 0xbf597fc7, 0xc6e00bf3, 0xd5a79147, 0x06ca6351, 0x14292967]
    + [0x27b70a85, 0x2e1b2138, 0x4d2c6dfc, 0x53380d13, 0x650a7354, 0x766a0abb, 0x81c2c92e, 0x92722c85]
    + [0xa2bfe8a1, 0xa81a664b, 0xc24b8b70, 0xc76c51a3, 0xd192e819, 0xd6990624, 0xf40e3585, 0x106aa070]
    + [0x19a4c116, 0x1e376c08, 0x2748774c, 0x34b0bcb5, 0x391c0cb3, 0x4ed8aa4a, 0x5b9cca4f, 0x682e6ff3]
    + [0x748f82ee, 0x78a5636f, 0x84c87814, 0x8cc70208, 0x90befffa, 0xa4506ceb, 0xbef9a3f7, 0xc67178f2]

  const H0 := State(0x6a09e667, 0xbb67ae85, 0x3c6ef372, 0xa54ff53a, 0x510e527f, 0x9b05688c, 0x1f83d9ab, 0x5be0cd19)

  // ── Section 6.2.2: the computation ────────────────────────────────────

  datatype State = State(a: Word, b: Word, c: Word, d: Word, e: Word, f: Word, g: Word, h: Word)

  /** One constant for each round. */
  type Constants = k: seq<Word> | |k| == 64 witness seq(64, _ => 0)

  type Block = b: seq<Byte> | |b| == 64 witness Zeros(64)

  /** `from_be_bytes` of the block's four bytes from `4 * t`. */
  function BlockWord(block: Block, t: nat): Word
    requires t < 16
  {
    var b0: nat, b1: nat, b2: nat, b3: nat := block[4 * t], block[4 * t + 1], block[4 * t + 2], block[4 * t + 3];
    b0 * 0x100_0000 + b1 * 0x1_0000 + b2 * 0x100 + b3
  }

  function Mix(w2: Word, w7: Word, w15: Word, w16: Word): Word {
    Plus(Plus(Plus(SmallSigma1(w2), w7), SmallSigma0(w15)), w16)
  }

  /** Step 1: the first `n` words of the message schedule. */
  function Schedule(block: Block, n: nat): (r: seq<Word>)
    requires n <= 64
    ensures |r| == n
  {
    if n == 0 then []
    else
      var w, t := Schedule(block, n - 1), n - 1;
      w + [if t < 16 then BlockWord(block, t) else Mix(w[t - 2], w[t - 7], w[t - 15], w[t - 16])]
  }

  function T1(s: State, k: Word, w: Word): Word {
    Plus(Plus(Plus(Plus(s.h, BigSigma1(s.e)), Ch(s.e, s.f, s.g)), k), w)
  }

  function T2(s: State): Word {
    Plus(BigSigma0(s.a), Maj(s.a, s.b, s.c))
  }

  /** Step 3, once: all eight working variables move on by one round. */
  function Round(s: State, k: Word, w: Word): State {
    State(Plus(T1(s, k, w), T2(s)), s.a, s.b, s.c, Plus(s.d, T1(s, k, w)), s.e, s.f, s.g)
  }

  /** The working variables after `t` rounds from `s`. */
  function Rounds(s: State, k: seq<Word>, w: seq<Word>, t: nat): State
    requires t <= |k| && t <= |w|
  {
    if t == 0 then s else Round(Rounds(s, k, w, t - 1), k[t - 1], w[t - 1])
  }

  /** Step 4: the intermediate hash value. */
  function Sum(s: State, t: State): State {
    State(Plus(s.a, t.a), Plus(s.b, t.b), Plus(s.c, t.c), Plus(s.d, t.d),
          Plus(s.e, t.e), Plus(s.f, t.f), Plus(s.g, t.g), Plus(s.h, t.h))
  }

  function Compress(s: State, k: Constants, block: Block): State {
    Sum(s, Rounds(s, k, Schedule(block, 64), 64))
  }

  /** The hash value after all whole blocks of `padded`, from `s`. */
  function Hash(s: State, k: Constants, padded: seq<Byte>): State
    decreases |padded|
  {
    if |padded| < 64 then s else Hash(Compress(s, k, padded[..64]), k, padded[64..])
  }

  // ── What the computation is ───────────────────────────────────────────

  /** Equation 6.2.2-1: the schedule is the block's words, continued by its recurrence. */
  lemma {:induction false} ScheduleRecurrence(block: Block, n: nat, t: nat)
    requires t < n <= 64
    ensures t < 16 ==> Schedule(block, n)[t] == BlockWord(block, t)
    ensures t >= 16 ==>
              Schedule(block, n)[t]
              == Mix(Schedule(block, n)[t - 2], Schedule(block, n)[t - 7],
                     Schedule(block, n)[t - 15], Schedule(block, n)[t - 16])
    decreases n
  {
    hide Rotr, Shr, Xor, Ch, Maj, Plus, Minus;
    if t < n - 1 {
      ScheduleRecurrence(block, n - 1, t);
    }
  }

  /** A word's four bytes, the most significant first, are the block's. */
  lemma BlockWordBytes(block: Block, t: nat)
    requires t < 16
    ensures BigEndian(BlockWord(block, t), 4) == block[4 * t..4 * t + 4]
  {
    var b0: nat, b1: nat, b2: nat, b3: nat := block[4 * t], block[4 * t + 1], block[4 * t + 2], block[4 * t + 3];
    var n := BlockWord(block, t);
    assert n / 256 == (b0 * 256 + b1) * 256 + b2 && n % 256 == b3;
    FourDigits(n, b0, b1, b2, b3);
  }

  lemma FourDigits(n: nat, b0: nat, b1: nat, b2: nat, b3: nat)
    requires b0 < 256 && b1 < 256 && b2 < 256 && b3 < 256
    requires n / 256 == (b0 * 256 + b1) * 256 + b2 && n % 256 == b3
    ensures Positional.Digits(n, 256, 4) == [b0, b1, b2, b3]
  {
    assert Positional.Digits(b0, 256, 1) == [b0] by {
      assert Positional.Digits(b0 / 256, 256, 0) == [];
    }
    assert Positional.Digits(b0 * 256 + b1, 256, 2) == [b0, b1];
    assert Positional.Digits(n / 256, 256, 3) == [b0, b1, b2];
  }

  lemma MinusUndoesPlus(x: Word, y: Word)
    ensures Minus(Plus(x, y), y) == x
  {
  }

  /** The state before a round, from the state after it. */
  function Unround(s: State, k: Word, w: Word): State {
    var t1 := Minus(s.a, Plus(BigSigma0(s.b), Maj(s.b, s.c, s.d)));
    State(s.b, s.c, s.d, Minus(s.e, t1), s.f, s.g, s.h,
          Minus(Minus(Minus(Minus(t1, w), k), Ch(s.f, s.g, s.h)), BigSigma1(s.f)))
  }

  lemma UnroundUndoesRound(s: State, k: Word, w: Word)
    ensures Unround(Round(s, k, w), k, w) == s
  {
    var s1 := Plus(s.h, BigSigma1(s.e));
    var s2 := Plus(s1, Ch(s.e, s.f, s.g));
    var s3 := Plus(s2, k);
    MinusUndoesPlus(T1(s, k, w), T2(s));
    MinusUndoesPlus(s.d, T1(s, k, w));
    MinusUndoesPlus(s3, w);
    MinusUndoesPlus(s2, k);
    MinusUndoesPlus(s1, Ch(s.e, s.f, s.g));
    MinusUndoesPlus(s.h, BigSigma1(s.e));
  }

  /** No round loses anything: under one schedule, different states stay different. */
  lemma {:induction false} RoundsInjective(s: State, s': State, k: seq<Word>, w: seq<Word>, t: nat)
    requires t <= |k| && t <= |w|
    requires Rounds(s, k, w, t) == Rounds(s', k, w, t)
    ensures s == s'
    decreases t
  {
    hide Rotr, Shr, Xor, Ch, Maj, Plus, Minus;
    if t > 0 {
      UnroundUndoesRound(Rounds(s, k, w, t - 1), k[t - 1], w[t - 1]);
      UnroundUndoesRound(Rounds(s', k, w, t - 1), k[t - 1], w[t - 1]);
      RoundsInjective(s, s', k, w, t - 1);
    }
  }

  /** The hash value is chained: whole blocks first, then the rest from where they led. */
  lemma {:induction false} HashChains(s: State, k: Constants, front: seq<Byte>, back: seq<Byte>)
    requires |front| % 64 == 0
    ensures Hash(s, k, front + back) == Hash(Hash(s, k, front), k, back)
    decreases |front|
  {
    hide Compress;
    if front == [] {
      assert front + back == back;
    } else {
      assert (front + back)[..64] == front[..64];
      assert (front + back)[64..] == front[64..] + back;
      HashChains(Compress(s, k, front[..64]), k, front[64..], back);
    }
  }

  // ── Hexadecimal output ────────────────────────────────────────────────

  function HexDigit(d: nat): char
    requires d < 16
  {
    if d < 10 then '0' + d as char else 'a' + (d - 10) as char
  }

  function DigitOf(c: char): nat {
    if '0' <= c <= '9' then c as nat - '0' as nat else if 'a' <= c <= 'f' then c as nat - 'a' as nat + 10 else 0
  }

  /** `{:08x}`. */
  function HexWord(w: Word, width: nat): (r: string)
    ensures |r| == width
  {
    var digits := Positional.Digits(w, 16, width);
    seq(width, i requires 0 <= i < width => HexDigit(digits[i]))
  }

  function ReadHex(text: string): nat {
    Positional.Value(seq(|text|, i requires 0 <= i < |text| => DigitOf(text[i])), 16)
  }

  /** Eight digits are enough for every word, so the text determines it. */
  lemma ReadHexWord(w: Word, width: nat)
    requires width == 8
    ensures ReadHex(HexWord(w, width)) == w
  {
    var digits, text := Positional.Digits(w, 16, width), HexWord(w, width);
    assert seq(|text|, i requires 0 <= i < |text| => DigitOf(text[i])) == digits;
    Positional.PowersUsed(width);
    Positional.ValueOfDigits(w, 16, width);
  }

  function HexText(s: State): (r: string)
    ensures |r| == 64
  {
    HexWord(s.a, 8) + HexWord(s.b, 8) + HexWord(s.c, 8) + HexWord(s.d, 8)
    + HexWord(s.e, 8) + HexWord(s.f, 8) + HexWord(s.g, 8) + HexWord(s.h, 8)
  }

  /** The digits, the most significant first. */
  lemma HexWordAt(w: Word, i: nat)
    requires i < 8
    ensures Positional.Power(16, 7 - i) > 0
    ensures HexWord(w, 8)[i] == "0123456789abcdef"[w / Positional.Power(16, 7 - i) % 16]
  {
    Positional.DigitAt(w, 16, 8, i);
    HexDigitIs(w / Positional.Power(16, 7 - i) % 16);
    hide Positional.Power, HexDigit;
  }

  lemma HexDigitIs(d: nat)
    requires d < 16
    ensures HexDigit(d) == "0123456789abcdef"[d]
  {
    if d < 8 {
      assert d in [0, 1, 2, 3, 4, 5, 6, 7];
    } else {
      assert d in [8, 9, 10, 11, 12, 13, 14, 15];
    }
  }

  /** Different hash values are printed differently. */
  lemma HexTextInjective(s: State, t: State)
    requires HexText(s) == HexText(t)
    ensures s == t
  {
    hide HexWord, ReadHex;
    var x, y := HexText(s), HexText(t);
    SameWord(x, y, s.a, t.a, 0);
    SameWord(x, y, s.b, t.b, 8);
    SameWord(x, y, s.c, t.c, 16);
    SameWord(x, y, s.d, t.d, 24);
    SameWord(x, y, s.e, t.e, 32);
    SameWord(x, y, s.f, t.f, 40);
    SameWord(x, y, s.g, t.g, 48);
    SameWord(x, y, s.h, t.h, 56);
  }

  lemma SameWord(x: string, y: string, v: Word, w: Word, at: nat)
    requires x == y && |x| >= at + 8
    requires x[at..at + 8] == HexWord(v, 8) && y[at..at + 8] == HexWord(w, 8)
    ensures v == w
  {
    hide HexWord, ReadHex;
    ReadHexWord(v, 8);
    ReadHexWord(w, 8);
  }

  // ── The program's loops ───────────────────────────────────────────────

  /** The array `w`. */
  method FillSchedule(block: Block) returns (w: array<Word>)
    ensures fresh(w) && w.Length == 64
    ensures w[..] == Schedule(block, 64)
  {
    hide Rotr, Shr, Xor, Ch, Maj, Plus, Minus;
    w := new Word[64](_ => 0);
    for i := 0 to 16
      invariant w[..i] == Schedule(block, i)
    {
      w[i] := BlockWord(block, i);
      assert w[..i + 1] == w[..i] + [w[i]];
    }
    for i := 16 to 64
      invariant w[..i] == Schedule(block, i)
    {
      ghost var before := w[..i];
      w[i] := Plus(Plus(Plus(SmallSigma1(w[i - 2]), w[i - 7]), SmallSigma0(w[i - 15])), w[i - 16]);
      assert w[i] == Mix(before[i - 2], before[i - 7], before[i - 15], before[i - 16]);
      assert w[..i + 1] == w[..i] + [w[i]];
    }
    assert w[..] == w[..64];
  }

  function StateOf(s: array<Word>): State
    requires s.Length == 8
    reads s
  {
    State(s[0], s[1], s[2], s[3], s[4], s[5], s[6], s[7])
  }

  /** One block: the registers rotate 64 times and are added into `h`. */
  method CompressInto(h: array<Word>, k: Constants, block: Block)
    requires h.Length == 8
    modifies h
    ensures StateOf(h) == Compress(old(StateOf(h)), k, block)
  {
    hide Rotr, Shr, Xor, Ch, Maj, Plus, Minus;
    var w := FillSchedule(block);
    ghost var start, words := StateOf(h), w[..];
    var a, b, c, d, e, f, g, hh := h[0], h[1], h[2], h[3], h[4], h[5], h[6], h[7];
    for i := 0 to 64
      invariant StateOf(h) == start && w[..] == words
      invariant State(a, b, c, d, e, f, g, hh) == Rounds(start, k, words, i)
    {
      var t1 := Plus(Plus(Plus(Plus(hh, BigSigma1(e)), Ch(e, f, g)), k[i]), w[i]);
      var t2 := Plus(BigSigma0(a), Maj(a, b, c));
      assert words[i] == w[i];
      hh := g;
      g := f;
      f := e;
      e := Plus(d, t1);
      d := c;
      c := b;
      b := a;
      a := Plus(t1, t2);
    }
    h[0] := Plus(h[0], a);
    h[1] := Plus(h[1], b);
    h[2] := Plus(h[2], c);
    h[3] := Plus(h[3], d);
    h[4] := Plus(h[4], e);
    h[5] := Plus(h[5], f);
    h[6] := Plus(h[6], g);
    h[7] := Plus(h[7], hh);
  }

  /** The block loop. */
  method HashBlocks(h: array<Word>, k: Constants, padded: seq<Byte>)
    requires h.Length == 8
    modifies h
    ensures StateOf(h) == Hash(old(StateOf(h)), k, padded)
  {
    hide Rotr, Shr, Xor, Ch, Maj, Plus, Minus;
    var rest := padded;
    while |rest| >= 64
      invariant Hash(StateOf(h), k, rest) == Hash(old(StateOf(h)), k, padded)
    {
      CompressInto(h, k, rest[..64]);
      rest := rest[64..];
    }
  }

  /** The program's `sha256_hex`. */
  method Sha256Hex(data: seq<Byte>) returns (hex: string)
    ensures hex == HexText(Hash(H0, K, Pad(data)))
  {
    hide Hash, HexWord, Pad;
    var h := new Word[8](_ => 0);
    h[0], h[1], h[2], h[3] := H0.a, H0.b, H0.c, H0.d;
    h[4], h[5], h[6], h[7] := H0.e, H0.f, H0.g, H0.h;
    var padded := PadMessage(data);
    HashBlocks(h, K, padded);
    hex := HexWord(h[0], 8) + HexWord(h[1], 8) + HexWord(h[2], 8) + HexWord(h[3], 8)
      + HexWord(h[4], 8) + HexWord(h[5], 8) + HexWord(h[6], 8) + HexWord(h[7], 8);
  }
}

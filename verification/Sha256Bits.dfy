/** What the logical functions and sums of sections 3.2 and 4.1.2 of FIPS 180-4 do to
    the bits of their arguments, said without the formulas that define them. */
module Sha256Bits {
  import opened Sha256Spec

  /** Where a bit of `x` is set the choice has the bit of `y`, elsewhere that of `z`. */
  lemma ChSelects(x: bv32, y: bv32, z: bv32)
    ensures Ch(x, y, z) & x == y & x && Ch(x, y, z) & !x == z & !x
  {
  }

  /** Where `x` and `y` agree they are the majority, elsewhere `z` decides. */
  lemma MajVotes(x: bv32, y: bv32, z: bv32)
    ensures var agree := !(x ^ y);
            Maj(x, y, z) & agree == x & agree && Maj(x, y, z) & !agree == z & !agree
  {
  }

  /** The sums are the integer sums without the bits above 31. */
  lemma SumsWrap(x: bv32, y: bv32, z: bv32, u: bv32)
    ensures Add(x, y) as bv64 == ((x as bv64) + (y as bv64)) & 0xffff_ffff
    ensures Sum4(x, y, z, u) as bv64 == ((x as bv64) + (y as bv64) + (z as bv64) + (u as bv64)) & 0xffff_ffff
  {
  }

  // ---- Rotations, shifts and sigmas: linear, so known from single bits ----

  /** The word with only bit `i` set, counted from the least significant. */
  function OneBit(i: bv32): bv32
    requires i < 32
  {
    1 << i
  }

  /** Rotation by any amount moves bit `i` down by `n` places, round the end. */
  lemma RotrMoves(i: bv32, n: bv32)
    requires i < 32 && 0 < n < 32
    ensures Rotr(OneBit(i), n) == OneBit((i - n) & 31)
  {
  }

  /** The rotations of the big sigmas respect exclusive or. */
  lemma BigRotations(x: bv32, y: bv32, n: bv32)
    requires n in {2, 6, 11, 13, 22, 25}
    ensures Rotr(Xor(x, y), n) == Xor(Rotr(x, n), Rotr(y, n))
  {
    if n == 2 {
    } else if n == 6 {
    } else if n == 11 {
    } else if n == 13 {
    } else if n == 22 {
    } else {
    }
  }

  lemma SmallRotations(x: bv32, y: bv32, n: bv32)
    requires n in {7, 17, 18, 19}
    ensures Rotr(Xor(x, y), n) == Xor(Rotr(x, n), Rotr(y, n))
  {
    if n == 7 {
    } else if n == 17 {
    } else if n == 18 {
    } else {
    }
  }

  lemma Shifts(x: bv32, y: bv32, n: bv32)
    requires n == 3 || n == 10
    ensures Shr(Xor(x, y), n) == Xor(Shr(x, n), Shr(y, n))
  {
    if n == 3 {
    } else {
    }
  }

  lemma XorCommutes(x: bv32, y: bv32)
    ensures Xor(x, y) == Xor(y, x)
  {
  }

  lemma XorAssociates(x: bv32, y: bv32, z: bv32)
    ensures Xor(Xor(x, y), z) == Xor(x, Xor(y, z))
  {
  }

  lemma XorPairs(a: bv32, b: bv32, c: bv32, d: bv32)
    ensures Xor(Xor(a, b), Xor(c, d)) == Xor(Xor(a, c), Xor(b, d))
  {
    hide Xor;
    XorAssociates(a, b, Xor(c, d));
    XorAssociates(b, c, d);
    XorCommutes(b, c);
    XorAssociates(c, b, d);
    XorAssociates(a, c, Xor(b, d));
  }

  lemma XorTriples(a: bv32, b: bv32, c: bv32, d: bv32, e: bv32, f: bv32)
    ensures Xor(Xor(Xor(a, b), Xor(c, d)), Xor(e, f)) == Xor(Xor(Xor(a, c), e), Xor(Xor(b, d), f))
  {
    hide Xor;
    XorPairs(a, b, c, d);
    XorPairs(Xor(a, c), Xor(b, d), e, f);
  }

  lemma SigmasLinear(x: bv32, y: bv32)
    ensures BigSigma0(Xor(x, y)) == Xor(BigSigma0(x), BigSigma0(y))
    ensures BigSigma1(Xor(x, y)) == Xor(BigSigma1(x), BigSigma1(y))
    ensures SmallSigma0(Xor(x, y)) == Xor(SmallSigma0(x), SmallSigma0(y))
    ensures SmallSigma1(Xor(x, y)) == Xor(SmallSigma1(x), SmallSigma1(y))
  {
    hide Rotr, Shr, Xor;
    BigRotations(x, y, 2);
    BigRotations(x, y, 13);
    BigRotations(x, y, 22);
    XorTriples(Rotr(x, 2), Rotr(y, 2), Rotr(x, 13), Rotr(y, 13), Rotr(x, 22), Rotr(y, 22));
    BigRotations(x, y, 6);
    BigRotations(x, y, 11);
    BigRotations(x, y, 25);
    XorTriples(Rotr(x, 6), Rotr(y, 6), Rotr(x, 11), Rotr(y, 11), Rotr(x, 25), Rotr(y, 25));
    SmallRotations(x, y, 7);
    SmallRotations(x, y, 18);
    Shifts(x, y, 3);
    XorTriples(Rotr(x, 7), Rotr(y, 7), Rotr(x, 18), Rotr(y, 18), Shr(x, 3), Shr(y, 3));
    SmallRotations(x, y, 17);
    SmallRotations(x, y, 19);
    Shifts(x, y, 10);
    XorTriples(Rotr(x, 17), Rotr(y, 17), Rotr(x, 19), Rotr(y, 19), Shr(x, 10), Shr(y, 10));
  }

  /** Each bit reaches three places of a big sigma. */
  lemma BigSigmaBits(i: bv32)
    requires i < 32
    ensures BigSigma0(OneBit(i)) == OneBit((i - 2) & 31) ^ OneBit((i - 13) & 31) ^ OneBit((i - 22) & 31)
    ensures BigSigma1(OneBit(i)) == OneBit((i - 6) & 31) ^ OneBit((i - 11) & 31) ^ OneBit((i - 25) & 31)
  {
  }

  /** A bit reaches two places of a small sigma by rotation and one by a shift, in
      which the lowest bits are lost. */
  lemma SmallSigmaBits(i: bv32)
    requires i < 32
    ensures SmallSigma0(OneBit(i)) ==
            OneBit((i - 7) & 31) ^ OneBit((i - 18) & 31) ^ if i < 3 then 0 else OneBit(i - 3)
    ensures SmallSigma1(OneBit(i)) ==
            OneBit((i - 17) & 31) ^ OneBit((i - 19) & 31) ^ if i < 10 then 0 else OneBit(i - 10)
  {
  }

  // ---- The compression, step by step ----

  /** Sixty-four rounds, each with its own constant and schedule word, and then the
      words they made are added to those of the chaining value. */
  lemma CompressSteps(v: Words, m: Block, t: nat)
    requires t < 64
    ensures Rounds(v, m, 0) == v
    ensures Rounds(v, m, t + 1) == Round(Rounds(v, m, t), K[t], W(m, t))
    ensures var r, u := Rounds(v, m, 64), Compress(v, m);
            && u.a == Add(v.a, r.a) && u.b == Add(v.b, r.b) && u.c == Add(v.c, r.c) && u.d == Add(v.d, r.d)
            && u.e == Add(v.e, r.e) && u.f == Add(v.f, r.f) && u.g == Add(v.g, r.g) && u.h == Add(v.h, r.h)
  {
    hide Round, W, K, Add;
  }

  // ---- Words and bytes, and one published round ----

  /** Four bytes make a word and the word gives them back, the first one on top. */
  lemma WordBytesRoundTrip(b0: bv8, b1: bv8, b2: bv8, b3: bv8)
    ensures WordBytes(WordOf(b0, b1, b2, b3)) == [b0, b1, b2, b3]
    ensures WordOf(b0, 0, 0, 0) == b0 as bv32 << 24
  {
  }

  /** The first round of the one-block example that NIST publishes with FIPS 180-4,
      whose block begins with "abc" and the end marker. */
  lemma FirstRoundOfAbc()
    ensures WordOf(0x61, 0x62, 0x63, 0x80) == 0x61626380
    ensures Round(H0, 0x428a2f98, 0x61626380)
         == Words(0x5d6aebcd, 0x6a09e667, 0xbb67ae85, 0x3c6ef372, 0xfa2a4622, 0x510e527f, 0x9b05688c, 0x1f83d9ab)
  {
    FirstRound(H0);
  }

  lemma FirstRound(v: Words)
    requires v == Words(0x6a09e667, 0xbb67ae85, 0x3c6ef372, 0xa54ff53a, 0x510e527f, 0x9b05688c, 0x1f83d9ab, 0x5be0cd19)
    ensures Round(v, 0x428a2f98, 0x61626380)
         == Words(0x5d6aebcd, 0x6a09e667, 0xbb67ae85, 0x3c6ef372, 0xfa2a4622, 0x510e527f, 0x9b05688c, 0x1f83d9ab)
  {
  }

  /** The last schedule word of that example, from the four it is computed from. */
  lemma LastWordOfAbc(m: Block)
    requires W(m, 61) == 0x668b2ff8 && W(m, 56) == 0xef57b9cd && W(m, 48) == 0xfb3e89cb && W(m, 47) == 0x065c43da
    ensures W(m, 63) == 0x12b1edeb
  {
    var w := W(m, 63);
    assert w == Sum4(SmallSigma1(W(m, 61)), W(m, 56), SmallSigma0(W(m, 48)), W(m, 47)) by {
      hide Sum4, SmallSigma0, SmallSigma1;
    }
    hide W;
    LastWord(0x668b2ff8, 0xef57b9cd, 0xfb3e89cb, 0x065c43da);
  }

  lemma LastWord(w61: bv32, w56: bv32, w48: bv32, w47: bv32)
    requires w61 == 0x668b2ff8 && w56 == 0xef57b9cd && w48 == 0xfb3e89cb && w47 == 0x065c43da
    ensures Sum4(SmallSigma1(w61), w56, SmallSigma0(w48), w47) == 0x12b1edeb
  {
  }
}

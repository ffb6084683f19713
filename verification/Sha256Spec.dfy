/** SHA-256 as FIPS 180-4 defines it: the reference the streaming code is proved
    against. Nothing here follows the shape of that code. */
module Sha256Spec {
  import opened Bytes

  /** Eight 32-bit words: a chaining value, or the working variables a..h. */
  datatype Words = Words(a: bv32, b: bv32, c: bv32, d: bv32, e: bv32, f: bv32, g: bv32, h: bv32)

  type Block = s: seq<bv8> | |s| == 64 witness seq(64, _ => 0)

  // Section 4.1.2: the six logical functions.

  function Ch(x: bv32, y: bv32, z: bv32): bv32 {
    (x & y) ^ (!x & z)
  }

  function Maj(x: bv32, y: bv32, z: bv32): bv32 {
    (x & y) ^ (x & z) ^ (y & z)
  }

  /** Section 3.2: addition modulo 2^32. */
  function Add(x: bv32, y: bv32): bv32 {
    x + y
  }

  function Sum4(x: bv32, y: bv32, z: bv32, u: bv32): bv32 {
    x + y + z + u
  }

  /** Section 3.2: circular right shift. */
  function Rotr(x: bv32, n: bv32): bv32
    requires 0 < n < 32
  {
    (x >> n) | (x << (32 - n))
  }

  /** Section 3.2: right shift. */
  function Shr(x: bv32, n: bv32): bv32
    requires n < 32
  {
    x >> n
  }

  function Xor(x: bv32, y: bv32): bv32 {
    x ^ y
  }

  function BigSigma0(x: bv32): bv32 {
    Xor(Xor(Rotr(x, 2), Rotr(x, 13)), Rotr(x, 22))
  }

  function BigSigma1(x: bv32): bv32 {
    Xor(Xor(Rotr(x, 6), Rotr(x, 11)), Rotr(x, 25))
  }

  function SmallSigma0(x: bv32): bv32 {
    Xor(Xor(Rotr(x, 7), Rotr(x, 18)), Shr(x, 3))
  }

  function SmallSigma1(x: bv32): bv32 {
    Xor(Xor(Rotr(x, 17), Rotr(x, 19)), Shr(x, 10))
  }

  // Section 4.2.2: the sixty-four constant words.

  const K: seq<bv32> :=
    (([0x428a2f98, 0x71374491, 0xb5c0fbcf, 0xe9b5dba5, 0x3956c25b, 0x59f111f1, 0x923f82a4, 0xab1c5ed5] +
      [0xd807aa98, 0x12835b01, 0x243185be, 0x550c7dc3, 0x72be5d74, 0x80deb1fe, 0x9bdc06a7, 0xc19bf174]) +
     ([0xe49b69c1, 0xefbe4786, 0x0fc19dc6, 0x240ca1cc, 0x2de92c6f, 0x4a7484aa, 0x5cb0a9dc, 0x76f988da] +
      [0x983e5152, 0xa831c66d, 0xb00327c8, 0xbf597fc7, 0xc6e00bf3, 0xd5a79147, 0x06ca6351, 0x14292967])) +
    (([0x27b70a85, 0x2e1b2138, 0x4d2c6dfc, 0x53380d13, 0x650a7354, 0x766a0abb, 0x81c2c92e, 0x92722c85] +
      [0xa2bfe8a1, 0xa81a664b, 0xc24b8b70, 0xc76c51a3, 0xd192e819, 0xd6990624, 0xf40e3585, 0x106aa070]) +
     ([0x19a4c116, 0x1e376c08, 0x2748774c, 0x34b0bcb5, 0x391c0cb3, 0x4ed8aa4a, 0x5b9cca4f, 0x682e6ff3] +
      [0x748f82ee, 0x78a5636f, 0x84c87814, 0x8cc70208, 0x90befffa, 0xa4506ceb, 0xbef9a3f7, 0xc67178f2]))

  // Section 5.3.3: the initial hash value.

  const H0 := Words(0x6a09e667, 0xbb67ae85, 0x3c6ef372, 0xa54ff53a, 0x510e527f, 0x9b05688c, 0x1f83d9ab, 0x5be0cd19)

  // Section 5.2.1: word t of a block, most significant byte first.

  function WordOf(b0: bv8, b1: bv8, b2: bv8, b3: bv8): bv32 {
    ((b0 as bv32) << 24) | ((b1 as bv32) << 16) | ((b2 as bv32) << 8) | (b3 as bv32)
  }

  function BlockWord(m: Block, t: nat): bv32
    requires t < 16
  {
    WordOf(m[4 * t], m[4 * t + 1], m[4 * t + 2], m[4 * t + 3])
  }

  // Section 6.2.2: message schedule, sixty-four rounds, new chaining value.

  function W(m: Block, t: nat): bv32
    requires t < 64
  {
    if t < 16 then BlockWord(m, t)
    else Sum4(SmallSigma1(W(m, t - 2)), W(m, t - 7), SmallSigma0(W(m, t - 15)), W(m, t - 16))
  }

  function Round(v: Words, k: bv32, w: bv32): Words {
    var t1 := Add(Sum4(v.h, BigSigma1(v.e), Ch(v.e, v.f, v.g), k), w);
    var t2 := Add(BigSigma0(v.a), Maj(v.a, v.b, v.c));
    Words(Add(t1, t2), v.a, v.b, v.c, Add(v.d, t1), v.e, v.f, v.g)
  }

  function Rounds(v: Words, m: Block, t: nat): Words
    requires t <= 64
  {
    if t == 0 then v else Round(Rounds(v, m, t - 1), K[t - 1], W(m, t - 1))
  }

  function AddWords(x: Words, y: Words): Words {
    Words(Add(x.a, y.a), Add(x.b, y.b), Add(x.c, y.c), Add(x.d, y.d),
          Add(x.e, y.e), Add(x.f, y.f), Add(x.g, y.g), Add(x.h, y.h))
  }

  function Compress(v: Words, m: Block): Words {
    AddWords(v, Rounds(v, m, 64))
  }

  // Section 5.1.1: padding. `ZeroCount` is the least k with (length + 1 + k) = 448 mod 512, in bytes.

  function ZeroCount(length: nat): nat {
    (119 - length % 64) % 64
  }

  /** The padding that a message of `length` bytes receives when its bit length
      is recorded as `bits`. */
  function Padding(length: nat, bits: nat): seq<bv8> {
    [0x80] + seq(ZeroCount(length), _ => 0 as bv8) + BigEndian(bits, 8)
  }

  function Pad(message: seq<bv8>): seq<bv8> {
    message + Padding(|message|, 8 * |message|)
  }

  /** The digest: the eight words, most significant byte first. */
  function WordBytes(w: bv32): (s: seq<bv8>)
    ensures |s| == 4
  {
    [(w >> 24) as bv8, ((w >> 16) & 0xff) as bv8, ((w >> 8) & 0xff) as bv8, (w & 0xff) as bv8]
  }

  function BytesOf(ws: seq<bv32>): (s: seq<bv8>)
    ensures |s| == 4 * |ws|
  {
    if ws == [] then [] else BytesOf(ws[..|ws| - 1]) + WordBytes(ws[|ws| - 1])
  }

  function WordList(v: Words): (ws: seq<bv32>)
    ensures |ws| == 8
  {
    [v.a, v.b, v.c, v.d, v.e, v.f, v.g, v.h]
  }
}

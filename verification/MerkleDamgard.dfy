/** The iteration of a compression function over padded blocks.

    Everything is stated for an arbitrary compression function `f`, so these
    proofs never look inside SHA-256's rounds. */
module MerkleDamgard {
  import opened Bytes
  import opened Sha256Spec

  type Compressor = (Words, Block) -> Words

  /** Chaining value after the blocks of `s`, starting from `v`. */
  function Absorb(f: Compressor, v: Words, s: seq<bv8>): Words
    requires |s| % 64 == 0
    decreases |s|
  {
    if s == [] then v else f(Absorb(f, v, s[..|s| - 64]), s[|s| - 64..])
  }

  lemma AbsorbBlock(f: Compressor, v: Words, s: seq<bv8>, m: Block)
    requires |s| % 64 == 0
    ensures Absorb(f, v, s + m) == f(Absorb(f, v, s), m)
  {
    assert (s + m)[..|s + m| - 64] == s;
    assert (s + m)[|s + m| - 64..] == m;
  }

  /** FIPS 180-4, section 6.2: pad, absorb from H0, write out the words. */
  function Hash(f: Compressor, message: seq<bv8>): (digest: seq<bv8>)
    ensures |digest| == 32
  {
    PadLength(message);
    BytesOf(WordList(Absorb(f, H0, Pad(message))))
  }

  function Sha256(message: seq<bv8>): (digest: seq<bv8>)
    ensures |digest| == 32
  {
    Hash(Compress, message)
  }

  /** Padding completes the message and nine more bytes to whole blocks. */
  lemma PadLength(message: seq<bv8>)
    ensures |Pad(message)| == (|message| + 9 + 63) / 64 * 64
    ensures |Pad(message)| % 64 == 0
  {
    hide ZeroCount, BigEndian;
    PadArithmetic(|message|);
    assert |Pad(message)| == |message| + 9 + ZeroCount(|message|);
  }

  lemma PadArithmetic(n: nat)
    ensures n + 9 + ZeroCount(n) == (n + 9 + 63) / 64 * 64
    ensures (n + 9 + ZeroCount(n)) % 64 == 0
  {
    var q, r := n / 64, n % 64;
    assert n == 64 * q + r;
    assert ZeroCount(n) == if r < 56 then 55 - r else 119 - r;
  }

  /** What is left of the message and its padding fill one block, or two when the
      length field does not fit beside the rest. */
  lemma OneOrTwoBlocks(message: seq<bv8>)
    ensures |Pad(message)| - |message| / 64 * 64 == if |message| % 64 < 56 then 64 else 128
  {
    hide Pad;
    PadLength(message);
    var q, r := |message| / 64, |message| % 64;
    assert |message| == 64 * q + r;
    if r < 56 {
      assert (|message| + 9 + 63) / 64 == q + 1;
    } else {
      assert (|message| + 9 + 63) / 64 == q + 2;
    }
  }

  /** It uses the fewest zero bytes that leave room for the length field alone. */
  lemma ZeroCountLeast(n: nat, k: nat)
    requires (n + 1 + k) % 64 == 56
    ensures (n + 1 + ZeroCount(n)) % 64 == 56 && ZeroCount(n) <= k
  {
    var q, r := n / 64, n % 64;
    assert n == 64 * q + r;
    assert ZeroCount(n) == if r < 56 then 55 - r else 119 - r;
  }

  predicate Collides(f: Compressor, v1: Words, m1: Block, v2: Words, m2: Block) {
    (v1 != v2 || m1 != m2) && f(v1, m1) == f(v2, m2)
  }

  /** Absorbing `s` from `v0` compresses block `i` of `s`, which is `m`, into the
      chaining value `v` reached before it. */
  predicate StepOf(f: Compressor, v0: Words, s: seq<bv8>, i: nat, v: Words, m: Block) {
    && |s| % 64 == 0 && 64 * i + 64 <= |s|
    && v == Absorb(f, v0, s[..64 * i])
    && m == s[64 * i..64 * i + 64]
  }

  /** Hashing `message` performs the compression of `v` and `m`. */
  ghost predicate Performs(f: Compressor, message: seq<bv8>, v: Words, m: Block) {
    exists i: nat :: StepOf(f, H0, Pad(message), i, v, m)
  }

  /** The last step, its output, and the last eight bytes it sees. */
  lemma LastBlock(f: Compressor, v0: Words, s: seq<bv8>) returns (i: nat, v: Words, m: Block)
    requires |s| % 64 == 0 && s != []
    ensures StepOf(f, v0, s, i, v, m) && 64 * i + 64 == |s|
    ensures Absorb(f, v0, s) == f(v, m) && m[56..] == s[|s| - 8..]
  {
    var n := |s| - 64;
    i, v, m := n / 64, Absorb(f, v0, s[..n]), s[n..];
  }

  /** A step of a prefix is a step of the whole. */
  lemma StepOfPrefix(f: Compressor, v0: Words, s: seq<bv8>, n: nat, i: nat, v: Words, m: Block)
    requires |s| % 64 == 0 && n <= |s| && StepOf(f, v0, s[..n], i, v, m)
    ensures StepOf(f, v0, s, i, v, m)
  {
    hide Absorb;
    assert s[..n][..64 * i] == s[..64 * i];
  }

  /** Two different inputs of one length that are absorbed to one value: walking
      back from the last block finds a block at which the two computations
      compressed different inputs to one output. */
  lemma {:induction false} WalkBack(f: Compressor, v: Words, s1: seq<bv8>, s2: seq<bv8>)
    returns (i: nat, v1: Words, m1: Block, v2: Words, m2: Block)
    requires |s1| == |s2| && |s1| % 64 == 0 && s1 != s2
    requires Absorb(f, v, s1) == Absorb(f, v, s2)
    ensures Collides(f, v1, m1, v2, m2)
    ensures StepOf(f, v, s1, i, v1, m1) && StepOf(f, v, s2, i, v2, m2)
    decreases |s1|
  {
    hide StepOf;
    var n := |s1| - 64;
    i, v1, m1 := LastBlock(f, v, s1);
    i, v2, m2 := LastBlock(f, v, s2);
    if v1 == v2 && m1 == m2 {
      LastStep(f, v, s1, i, v1, m1);
      LastStep(f, v, s2, i, v2, m2);
      i, v1, m1, v2, m2 := WalkBack(f, v, s1[..n], s2[..n]);
      StepOfPrefix(f, v, s1, n, i, v1, m1);
      StepOfPrefix(f, v, s2, n, i, v2, m2);
    }
  }

  /** The last step splits the input and the computation. */
  lemma LastStep(f: Compressor, v0: Words, s: seq<bv8>, i: nat, v: Words, m: Block)
    requires StepOf(f, v0, s, i, v, m) && 64 * i + 64 == |s|
    ensures s == s[..|s| - 64] + m && v == Absorb(f, v0, s[..|s| - 64])
  {
    hide Absorb;
  }

  lemma WordBytesInjective(x: bv32, y: bv32)
    requires WordBytes(x) == WordBytes(y)
    ensures x == y
  {
    assert WordBytes(x)[0] == WordBytes(y)[0] && WordBytes(x)[1] == WordBytes(y)[1];
    assert WordBytes(x)[2] == WordBytes(y)[2] && WordBytes(x)[3] == WordBytes(y)[3];
  }

  lemma {:induction false} BytesOfInjective(x: seq<bv32>, y: seq<bv32>)
    requires BytesOf(x) == BytesOf(y)
    ensures x == y
  {
    if |x| > 0 && |y| > 0 {
      var i := |x| - 1;
      assert BytesOf(x[..i]) == BytesOf(x)[..4 * i] && BytesOf(y[..i]) == BytesOf(y)[..4 * i];
      assert WordBytes(x[i]) == BytesOf(x)[4 * i..] && WordBytes(y[i]) == BytesOf(y)[4 * i..];
      BytesOfInjective(x[..i], y[..i]);
      WordBytesInjective(x[i], y[i]);
      assert x == x[..i] + [x[i]] && y == y[..i] + [y[i]];
    }
  }

  /** The digest has the words in order, each in its four bytes. */
  lemma {:induction false} BytesOfAt(ws: seq<bv32>, i: nat)
    requires i < |ws|
    ensures BytesOf(ws)[4 * i..4 * i + 4] == WordBytes(ws[i])
  {
    var n := |ws| - 1;
    if i < n {
      BytesOfAt(ws[..n], i);
      assert BytesOf(ws)[4 * i..4 * i + 4] == BytesOf(ws[..n])[4 * i..4 * i + 4];
    }
  }

  lemma DigestInjective(x: Words, y: Words)
    requires BytesOf(WordList(x)) == BytesOf(WordList(y))
    ensures x == y
  {
    BytesOfInjective(WordList(x), WordList(y));
    var s, t := WordList(x), WordList(y);
    assert s[0] == t[0] && s[1] == t[1] && s[2] == t[2] && s[3] == t[3];
    assert s[4] == t[4] && s[5] == t[5] && s[6] == t[6] && s[7] == t[7];
  }

  /** The messages FIPS 180-4 gives a digest for: shorter than 2^64 bits. */
  predicate Hashable(message: seq<bv8>) {
    8 * |message| < 0x1_0000_0000_0000_0000
  }

  /** Equal length fields mean equal lengths. */
  lemma PadTail(m1: seq<bv8>, m2: seq<bv8>)
    requires Hashable(m1) && Hashable(m2)
    requires Pad(m1)[|Pad(m1)| - 8..] == Pad(m2)[|Pad(m2)| - 8..]
    ensures |m1| == |m2|
  {
    Pow256Of8();
    BigEndianRoundTrip(8 * |m1|, 8);
    BigEndianRoundTrip(8 * |m2|, 8);
    assert Pad(m1)[|Pad(m1)| - 8..] == BigEndian(8 * |m1|, 8);
    assert Pad(m2)[|Pad(m2)| - 8..] == BigEndian(8 * |m2|, 8);
  }

  /** Section 5.1.1: the message, a one bit, zeros, and the length in bits. */
  lemma PadLayout(message: seq<bv8>)
    requires Hashable(message)
    ensures var p, n := Pad(message), |message|;
            && n + 9 <= |p| && p[..n] == message && p[n] == 0x80
            && (forall i :: n < i < |p| - 8 ==> p[i] == 0)
            && BigEndianValue(p[|p| - 8..]) == 8 * n
  {
    hide BigEndian, BigEndianValue;
    Pow256Of8();
    BigEndianRoundTrip(8 * |message|, 8);
    assert Pad(message)[|Pad(message)| - 8..] == BigEndian(8 * |message|, 8);
  }

  /** Padding is injective on the messages that have a digest. */
  lemma PadInjective(m1: seq<bv8>, m2: seq<bv8>)
    requires Hashable(m1) && Hashable(m2)
    requires Pad(m1) == Pad(m2)
    ensures m1 == m2
  {
    PadTail(m1, m2);
    assert m1 == Pad(m1)[..|m1|] && m2 == Pad(m2)[..|m2|];
  }

  /** Messages of different lengths collide in their last blocks. */
  lemma LengthCollision(f: Compressor, x1: seq<bv8>, x2: seq<bv8>)
    returns (v1: Words, m1: Block, v2: Words, m2: Block)
    requires Hashable(x1) && Hashable(x2) && |x1| != |x2|
    requires |Pad(x1)| % 64 == 0 && |Pad(x2)| % 64 == 0
    requires Absorb(f, H0, Pad(x1)) == Absorb(f, H0, Pad(x2))
    ensures Collides(f, v1, m1, v2, m2)
    ensures Performs(f, x1, v1, m1) && Performs(f, x2, v2, m2)
  {
    hide Absorb, Pad, Hashable, StepOf;
    PadLength(x1);
    PadLength(x2);
    var i1, i2;
    i1, v1, m1 := LastBlock(f, H0, Pad(x1));
    i2, v2, m2 := LastBlock(f, H0, Pad(x2));
    if m1 == m2 {
      PadTail(x1, x2);
      assert false;
    }
  }

  /** Two messages of any lengths with one digest: among the compressions of the
      one and those of the other are two with different inputs and one output. */
  lemma HashCollision(f: Compressor, x1: seq<bv8>, x2: seq<bv8>)
    returns (v1: Words, m1: Block, v2: Words, m2: Block)
    requires Hashable(x1) && Hashable(x2)
    requires x1 != x2 && Hash(f, x1) == Hash(f, x2)
    ensures Collides(f, v1, m1, v2, m2)
    ensures Performs(f, x1, v1, m1) && Performs(f, x2, v2, m2)
  {
    hide Absorb, BytesOf, Collides, StepOf;
    PadLength(x1);
    PadLength(x2);
    DigestInjective(Absorb(f, H0, Pad(x1)), Absorb(f, H0, Pad(x2)));
    if |x1| != |x2| {
      v1, m1, v2, m2 := LengthCollision(f, x1, x2);
    } else {
      if Pad(x1) == Pad(x2) {
        PadInjective(x1, x2);
        assert false;
      }
      var i;
      i, v1, m1, v2, m2 := WalkBack(f, H0, Pad(x1), Pad(x2));
    }
  }
}

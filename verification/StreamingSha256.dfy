/** The streaming SHA-256 of include/crypto/sha256.c, proved against `Sha256Spec`. */
module StreamingSha256 {
  import opened Bytes
  import opened Sha256Spec
  import opened MerkleDamgard

  function WordsOf(s: seq<bv32>): Words
    requires |s| == 8
  {
    Words(s[0], s[1], s[2], s[3], s[4], s[5], s[6], s[7])
  }

  lemma AddCommutes(x: bv32, y: bv32)
    ensures Add(x, y) == Add(y, x)
  {
  }

  /** One round of the C loops: `t1` starts as the schedule word, and the eight
      working variables then shift by one. */
  method RunRound(v: Words, k: bv32, w: bv32) returns (r: Words)
    ensures r == Round(v, k, w)
  {
    hide Add, Sum4, BigSigma0, BigSigma1, Ch, Maj;
    var a, b, c, d, e, f, g, h := v.a, v.b, v.c, v.d, v.e, v.f, v.g, v.h;
    var t1 := w;
    AddCommutes(t1, Sum4(h, BigSigma1(e), Ch(e, f, g), k));
    t1 := Add(t1, Sum4(h, BigSigma1(e), Ch(e, f, g), k));
    var t2 := Add(BigSigma0(a), Maj(a, b, c));
    h := g; g := f; f := e; e := Add(d, t1);
    d := c; c := b; b := a; a := Add(t1, t2);
    r := Words(a, b, c, d, e, f, g, h);
  }

  /** `work_space[i & 15] += s0 + s1 + work_space[(i + 9) & 15]`. */
  method Accumulate(w16: bv32, s0: bv32, s1: bv32, w7: bv32) returns (w: bv32)
    ensures w == Sum4(s1, w7, s0, w16)
  {
    w := w16 + (s0 + s1 + w7);
  }

  /** The rolling window before round `i`: each of the last sixteen schedule words
      (fewer at the start) sits in the slot numbered by its index modulo 16. */
  ghost predicate Window(work: seq<bv32>, m: Block, i: nat)
    requires |work| == 16 && i <= 64
  {
    forall j :: 0 <= j < i && i - 16 <= j ==> work[j % 16] == W(m, j)
  }

  lemma WindowSlots(i: nat)
    requires 16 <= i
    ensures (i + 1) % 16 == (i - 15) % 16 && (i + 9) % 16 == (i - 7) % 16
    ensures (i + 14) % 16 == (i - 2) % 16 && i % 16 == (i - 16) % 16
    ensures forall j :: i - 16 < j < i ==> j % 16 != i % 16
  {
  }

  lemma WindowAdvances(work: seq<bv32>, m: Block, i: nat, w: bv32)
    requires |work| == 16 && 16 <= i < 64 && Window(work, m, i)
    requires w == Sum4(SmallSigma1(work[(i + 14) % 16]), work[(i + 9) % 16],
                       SmallSigma0(work[(i + 1) % 16]), work[i % 16])
    ensures w == W(m, i) && Window(work[i % 16 := w], m, i + 1)
  {
    hide Sum4, SmallSigma0, SmallSigma1, W;
    WindowSlots(i);
    ScheduleStep(m, i);
    forall j | 0 <= j < i + 1 && i + 1 - 16 <= j
      ensures work[i % 16 := w][j % 16] == W(m, j)
    {
    }
  }

  lemma ScheduleStep(m: Block, i: nat)
    requires 16 <= i < 64
    ensures W(m, i) == Sum4(SmallSigma1(W(m, i - 2)), W(m, i - 7), SmallSigma0(W(m, i - 15)), W(m, i - 16))
  {
    hide Sum4, SmallSigma0, SmallSigma1;
  }

  lemma WindowEmpty(work: seq<bv32>, m: Block)
    requires |work| == 16
    ensures Window(work, m, 0)
  {
  }

  lemma WindowStarts(work: seq<bv32>, m: Block, i: nat)
    requires |work| == 16 && i < 16 && Window(work, m, i)
    ensures BlockWord(m, i) == W(m, i) && Window(work[i := BlockWord(m, i)], m, i + 1)
  {
    hide BlockWord;
    assert forall j :: 0 <= j <= i ==> j % 16 == j;
  }

  method FirstRounds(v0: Words, data: array<bv8>, work: array<bv32>) returns (v: Words)
    requires data.Length == 64 && work.Length == 16
    modifies work
    ensures v == Rounds(v0, data[..], 16) && Window(work[..], data[..], 16)
  {
    hide Round, WordOf, Window, W;
    ghost var m: Block := data[..];
    v := v0;
    var i := 0;
    assert Window(work[..], m, 0) by { WindowEmpty(work[..], m); }
    while i < 16
      invariant 0 <= i <= 16
      invariant v == Rounds(v0, m, i) && Window(work[..], m, i)
    {
      ghost var before := work[..];
      var w := WordOf(data[4 * i], data[4 * i + 1], data[4 * i + 2], data[4 * i + 3]);
      assert w == BlockWord(m, i);
      WindowStarts(work[..], m, i);
      work[i] := w;
      assert work[..] == before[i := w];
      v := RunRound(v, K[i], work[i]);
      i := i + 1;
    }
  }

  method LastRounds(ghost v0: Words, ghost m: Block, v16: Words, work: array<bv32>) returns (v: Words)
    requires work.Length == 16
    requires v16 == Rounds(v0, m, 16) && Window(work[..], m, 16)
    modifies work
    ensures v == Rounds(v0, m, 64) && Window(work[..], m, 64)
  {
    hide Round, Sum4, SmallSigma0, SmallSigma1, Window, W;
    v := v16;
    var i := 16;
    while i < 64
      invariant 16 <= i <= 64
      invariant v == Rounds(v0, m, i) && Window(work[..], m, i)
    {
      var s0 := SmallSigma0(work[(i + 1) % 16]);
      var s1 := SmallSigma1(work[(i + 14) % 16]);
      var w := Accumulate(work[i % 16], s0, s1, work[(i + 9) % 16]);
      WindowAdvances(work[..], m, i, w);
      ghost var before := work[..];
      work[i % 16] := w;
      assert work[..] == before[i % 16 := w];
      v := RunRound(v, K[i], work[i % 16]);
      i := i + 1;
    }
  }

  /** `compress`: section 6.2.2 of FIPS 180-4 on every state and block, in place. */
  method CompressInto(iv: array<bv32>, data: array<bv8>)
    requires iv.Length == 8 && data.Length == 64
    modifies iv
    ensures WordsOf(iv[..]) == Compress(old(WordsOf(iv[..])), data[..])
  {
    hide Rounds, Add;
    ghost var h := WordsOf(iv[..]);
    var work := new bv32[16];
    var v := FirstRounds(WordsOf(iv[..]), data, work);
    v := LastRounds(h, data[..], v, work);
    iv[0], iv[1], iv[2], iv[3] := Add(iv[0], v.a), Add(iv[1], v.b), Add(iv[2], v.c), Add(iv[3], v.d);
    iv[4], iv[5], iv[6], iv[7] := Add(iv[4], v.e), Add(iv[5], v.f), Add(iv[6], v.g), Add(iv[7], v.h);
  }

  const BLOCK_SIZE: nat := 64
  const CRYPTO_SUCCESS := 1
  const CRYPTO_FAIL := 0

  /** The padded message when the length field, like `bits_hashed`, wraps at 64 bits. */
  function CodePad(message: seq<bv8>): seq<bv8> {
    message + Padding(|message|, 8 * |message| % 0x1_0000_0000_0000_0000)
  }

  /** What the code computes for any message at all. */
  function CodeDigest(message: seq<bv8>): (digest: seq<bv8>)
    ensures |digest| == 32
  {
    CodePadLength(message);
    BytesOf(WordList(Absorb(Compress, H0, CodePad(message))))
  }

  lemma CodePadLength(message: seq<bv8>)
    ensures |CodePad(message)| == |Pad(message)| == (|message| + 9 + 63) / 64 * 64
    ensures |CodePad(message)| % 64 == 0
  {
    PadLength(message);
  }

  /** On every message FIPS 180-4 defines a digest for, it is that digest. */
  lemma CodeDigestIsSha256(message: seq<bv8>)
    requires Hashable(message)
    ensures CodeDigest(message) == Sha256(message)
  {
    hide Compress, Absorb, BytesOf, Padding;
    assert CodePad(message) == Pad(message);
  }

  /** `_set` of tc_defs.h on part of an array. */
  method Set(to: array<bv8>, from: nat, val: bv8, len: nat)
    requires from + len <= to.Length
    modifies to
    ensures to[..] == old(to[..from]) + seq(len, _ => val) + old(to[from + len..])
  {
    var i := 0;
    while i < len
      invariant 0 <= i <= len
      invariant to[..from] == old(to[..from]) && to[from + len..] == old(to[from + len..])
      invariant forall j :: from <= j < from + i ==> to[j] == val
    {
      to[from + i] := val;
      i := i + 1;
    }
    assert to[from..from + len] == seq(len, _ => val);
    assert to[..] == to[..from] + to[from..from + len] + to[from + len..];
  }

  /** `tc_sha256_state_struct`. */
  class HashState {
    const iv: array<bv32>
    const leftover: array<bv8>
    var bits_hashed: u64
    var leftover_offset: nat

    /** The bytes given to update since init. */
    ghost var absorbed: seq<bv8>

    ghost predicate Shape() {
      iv.Length == 8 && leftover.Length == BLOCK_SIZE
    }

    /** Whole blocks of the absorbed bytes are in `iv`, the rest in `leftover`. */
    ghost predicate Valid()
      reads this, iv, leftover
    {
      && Shape()
      && leftover_offset < BLOCK_SIZE
      && Compressed(WordsOf(iv[..]), leftover[..leftover_offset], absorbed)
      && bits_hashed == 8 * (|absorbed| - leftover_offset) % 0x1_0000_0000_0000_0000
    }

    constructor ()
      ensures Shape() && fresh(this) && fresh(iv) && fresh(leftover)
    {
      iv := new bv32[8];
      leftover := new bv8[BLOCK_SIZE];
      bits_hashed, leftover_offset := 0, 0;
    }
  }

  /** `h` has absorbed all of `message` but `rest`. */
  ghost predicate Compressed(h: Words, rest: seq<bv8>, message: seq<bv8>) {
    var n := |message| - |rest|;
    n >= 0 && n % 64 == 0 && message[n..] == rest && h == Absorb(Compress, H0, message[..n])
  }

  lemma CompressedMore(h: Words, rest: seq<bv8>, message: seq<bv8>, more: seq<bv8>)
    requires Compressed(h, rest, message)
    ensures Compressed(h, rest + more, message + more)
  {
    hide Compress;
    var n := |message| - |rest|;
    assert (message + more)[..n] == message[..n];
  }

  lemma CompressedBlock(h: Words, rest: seq<bv8>, message: seq<bv8>, more: seq<bv8>)
    requires Compressed(h, rest, message) && |rest + more| == 64
    ensures Compressed(Compress(h, rest + more), [], message + more)
  {
    hide Compress;
    var n := |message| - |rest|;
    assert message + more == message[..n] + (rest + more);
    AbsorbBlock(Compress, H0, message[..n], rest + more);
    assert (message + more)[..|message + more|] == message + more;
  }

  /** `tc_sha256_init`. */
  method Init(s: HashState?) returns (code: int)
    requires s != null ==> s.Shape()
    modifies if s == null then {} else {s, s.iv, s.leftover}
    ensures code == if s == null then CRYPTO_FAIL else CRYPTO_SUCCESS
    ensures s != null ==> s.Valid() && s.absorbed == []
  {
    if s == null {
      return CRYPTO_FAIL;
    }
    Set(s.leftover, 0, 0, 64);
    s.bits_hashed, s.leftover_offset := 0, 0;
    s.iv[0], s.iv[1], s.iv[2], s.iv[3] := 0x6a09e667, 0xbb67ae85, 0x3c6ef372, 0xa54ff53a;
    s.iv[4], s.iv[5], s.iv[6], s.iv[7] := 0x510e527f, 0x9b05688c, 0x1f83d9ab, 0x5be0cd19;
    s.absorbed := [];
    assert WordsOf(s.iv[..]) == H0;
    return CRYPTO_SUCCESS;
  }

  /** One turn of the update loop: store a byte, and compress a full buffer. */
  method AbsorbByte(s: HashState, b: bv8)
    requires s.Valid()
    modifies s, s.iv, s.leftover
    ensures s.Valid() && s.absorbed == old(s.absorbed) + [b]
  {
    hide Compress, Absorb;
    ghost var rest := s.leftover[..s.leftover_offset];
    ghost var message := s.absorbed;
    s.leftover[s.leftover_offset] := b;
    s.leftover_offset := s.leftover_offset + 1;
    s.absorbed := s.absorbed + [b];
    assert s.leftover[..s.leftover_offset] == rest + [b];
    if s.leftover_offset >= BLOCK_SIZE {
      assert s.leftover[..] == rest + [b];
      CompressedBlock(WordsOf(s.iv[..]), rest, message, [b]);
      CompressInto(s.iv, s.leftover);
      s.leftover_offset := 0;
      s.bits_hashed := (s.bits_hashed + 512) % 0x1_0000_0000_0000_0000;
      assert s.leftover[..0] == [];
    } else {
      CompressedMore(WordsOf(s.iv[..]), rest, message, [b]);
    }
  }

  /** `tc_sha256_update`: the bytes are appended to the message, however the
      message is cut into calls. */
  method Update(s: HashState?, data: array?<bv8>, datalen: nat) returns (code: int)
    requires s != null ==> s.Valid()
    requires data != null ==> datalen <= data.Length
    requires s != null ==> data != s.leftover
    modifies if s == null || data == null then {} else {s, s.iv, s.leftover}
    ensures code == if s == null || data == null then CRYPTO_FAIL else CRYPTO_SUCCESS
    ensures s != null && data != null ==> s.Valid() && s.absorbed == old(s.absorbed) + data[..datalen]
  {
    if s == null || data == null {
      return CRYPTO_FAIL;
    } else if datalen == 0 {
      return CRYPTO_SUCCESS;
    }
    var i := 0;
    while i < datalen
      invariant 0 <= i <= datalen
      invariant s.Valid() && s.absorbed == old(s.absorbed) + data[..i]
    {
      AbsorbByte(s, data[i]);
      assert data[..i + 1] == data[..i] + [data[i]];
      i := i + 1;
    }
    return CRYPTO_SUCCESS;
  }

  function Zeros(n: nat): (z: seq<bv8>)
    ensures |z| == n
  {
    seq(n, _ => 0 as bv8)
  }

  /** The eight length bytes, least significant last. */
  method StoreLength(leftover: array<bv8>, bits: u64)
    requires leftover.Length == 64
    modifies leftover
    ensures leftover[..] == old(leftover[..56]) + BigEndian(bits, 8)
  {
    hide ShiftedByte, BigEndian;
    leftover[64 - 1] := ShiftedByte(bits, 0);
    leftover[64 - 2] := ShiftedByte(bits, 1);
    leftover[64 - 3] := ShiftedByte(bits, 2);
    leftover[64 - 4] := ShiftedByte(bits, 3);
    leftover[64 - 5] := ShiftedByte(bits, 4);
    leftover[64 - 6] := ShiftedByte(bits, 5);
    leftover[64 - 7] := ShiftedByte(bits, 6);
    leftover[64 - 8] := ShiftedByte(bits, 7);
    forall i | 56 <= i < 64
      ensures leftover[i] == BigEndian(bits, 8)[i - 56]
    {
      BigEndianDigit(bits, 8, 63 - i);
    }
    assert leftover[56..] == BigEndian(bits, 8);
    assert leftover[..] == leftover[..56] + leftover[56..];
  }

  /** The bytes appended by final, in one block or two. */
  lemma PaddingSplits(message: seq<bv8>, off: nat)
    requires off == |message| % 64
    ensures var bits := 8 * |message| % 0x1_0000_0000_0000_0000;
            if off + 1 > 56 then
              (message + ([0x80] + Zeros(63 - off))) + (Zeros(56) + BigEndian(bits, 8)) == CodePad(message)
            else
              (message + [0x80]) + (Zeros(55 - off) + BigEndian(bits, 8)) == CodePad(message)
  {
    hide BigEndian;
    if off + 1 <= 56 {
      assert ZeroCount(|message|) == 55 - off;
    } else {
      assert ZeroCount(|message|) == 119 - off;
      assert Zeros(63 - off) + Zeros(56) == Zeros(119 - off);
    }
  }

  /** The wrapped bit count, and where the buffer stands, in terms of the message. */
  lemma Counted(s: HashState)
    requires s.Valid()
    ensures (s.bits_hashed + 8 * s.leftover_offset) % 0x1_0000_0000_0000_0000
         == 8 * |s.absorbed| % 0x1_0000_0000_0000_0000
    ensures s.leftover_offset == |s.absorbed| % 64
  {
    hide Absorb, Compress, WordsOf;
    CountedArithmetic(|s.absorbed|, s.leftover_offset);
  }

  lemma CountedArithmetic(n: nat, off: nat)
    requires off < 64 && off <= n && (n - off) % 64 == 0
    ensures off == n % 64
    ensures (8 * (n - off) % 0x1_0000_0000_0000_0000 + 8 * off) % 0x1_0000_0000_0000_0000
         == 8 * n % 0x1_0000_0000_0000_0000
  {
    ModSum(8 * (n - off), 8 * off);
  }

  lemma ModSum(x: nat, y: nat)
    ensures (x % 0x1_0000_0000_0000_0000 + y) % 0x1_0000_0000_0000_0000 == (x + y) % 0x1_0000_0000_0000_0000
  {
  }

  lemma CompressedAll(h: Words, message: seq<bv8>)
    requires Compressed(h, [], message)
    ensures |message| % 64 == 0 && h == Absorb(Compress, H0, message)
  {
    hide Compress;
    assert message[..|message|] == message;
  }

  /** Final up to the length field: the end marker, and a whole block of padding
      when the length no longer fits beside it. */
  method StartPadding(s: HashState) returns (ghost begun: seq<bv8>)
    requires s.Valid()
    modifies s, s.iv, s.leftover
    ensures s.leftover_offset <= 56
    ensures s.bits_hashed == 8 * |old(s.absorbed)| % 0x1_0000_0000_0000_0000
    ensures Compressed(WordsOf(s.iv[..]), s.leftover[..s.leftover_offset], begun)
    ensures begun + (Zeros(56 - s.leftover_offset) + BigEndian(s.bits_hashed, 8)) == CodePad(old(s.absorbed))
  {
    hide Compress, Absorb, CodePad, BigEndian;
    Counted(s);
    ghost var off := s.leftover_offset;
    ghost var rest := s.leftover[..off];
    begun := s.absorbed;
    s.bits_hashed := (s.bits_hashed + 8 * s.leftover_offset) % 0x1_0000_0000_0000_0000;
    PaddingSplits(begun, off);
    s.leftover[s.leftover_offset] := 0x80;
    s.leftover_offset := s.leftover_offset + 1;
    assert s.leftover[..s.leftover_offset] == rest + [0x80];
    if s.leftover_offset > 64 - 8 {
      Set(s.leftover, s.leftover_offset, 0, 64 - s.leftover_offset);
      ghost var fill := [0x80] + Zeros(63 - off);
      assert s.leftover[..] == rest + fill;
      CompressedBlock(WordsOf(s.iv[..]), rest, begun, fill);
      CompressInto(s.iv, s.leftover);
      begun := begun + fill;
      s.leftover_offset := 0;
      assert s.leftover[..0] == [];
    } else {
      CompressedMore(WordsOf(s.iv[..]), rest, begun, [0x80]);
      begun := begun + [0x80];
    }
  }

  /** The part of final up to the last compression. Every store is inside the buffer. */
  method PadAndCompress(s: HashState)
    requires s.Valid()
    modifies s, s.iv, s.leftover
    ensures |CodePad(old(s.absorbed))| % 64 == 0
    ensures WordsOf(s.iv[..]) == Absorb(Compress, H0, CodePad(old(s.absorbed)))
  {
    hide Compress, Absorb, BigEndian, CodePad, Compressed;
    ghost var begun := StartPadding(s);
    ghost var rest := s.leftover[..s.leftover_offset];
    ghost var fill := Zeros(56 - s.leftover_offset) + BigEndian(s.bits_hashed, 8);
    Set(s.leftover, s.leftover_offset, 0, 64 - 8 - s.leftover_offset);
    StoreLength(s.leftover, s.bits_hashed);
    assert s.leftover[..] == rest + fill;
    CompressedBlock(WordsOf(s.iv[..]), rest, begun, fill);
    CompressInto(s.iv, s.leftover);
    CompressedAll(WordsOf(s.iv[..]), begun + fill);
  }

  /** The words of `iv` as bytes, into the first 32 bytes of `digest`. */
  method WriteDigest(digest: array<bv8>, iv: array<bv32>)
    requires digest.Length >= 32 && iv.Length == 8
    modifies digest
    ensures digest[..32] == BytesOf(WordList(WordsOf(iv[..])))
    ensures digest[32..] == old(digest[32..])
  {
    hide WordBytes;
    var i := 0;
    while i < 8
      invariant 0 <= i <= 8
      invariant digest[..4 * i] == BytesOf(iv[..i])
      invariant digest[32..] == old(digest[32..])
    {
      var t := iv[i];
      var b := WordBytes(t);
      ghost var before := digest[..4 * i];
      digest[4 * i], digest[4 * i + 1], digest[4 * i + 2], digest[4 * i + 3] := b[0], b[1], b[2], b[3];
      assert iv[..i + 1][..i] == iv[..i];
      assert digest[..4 * (i + 1)] == before + b;
      i := i + 1;
    }
    assert iv[..8] == WordList(WordsOf(iv[..]));
  }

  /** `tc_sha256_final`. */
  method Final(digest: array?<bv8>, s: HashState?) returns (code: int)
    requires s != null ==> s.Valid() && digest != s.leftover
    requires digest != null ==> digest.Length >= 32
    modifies if s == null || digest == null then {} else {digest, s, s.iv, s.leftover}
    ensures code == if s == null || digest == null then CRYPTO_FAIL else CRYPTO_SUCCESS
    ensures s != null && digest != null ==> digest[..32] == CodeDigest(old(s.absorbed))
    ensures s != null && digest != null && Hashable(old(s.absorbed)) ==> digest[..32] == Sha256(old(s.absorbed))
    ensures s != null && digest != null ==> digest[32..] == old(digest[32..])
    ensures s != null && digest != null ==>
              Erased(s.iv[..], s.leftover[..]) && s.bits_hashed == 0 && s.leftover_offset == 0
  {
    hide Compress, Absorb, CodePad, BytesOf, Hash;
    if digest == null || s == null {
      return CRYPTO_FAIL;
    }
    ghost var message := s.absorbed;
    PadAndCompress(s);
    WriteDigest(digest, s.iv);
    if Hashable(message) {
      CodeDigestIsSha256(message);
    }
    forall j | 0 <= j < 8 {
      s.iv[j] := 0;
    }
    Set(s.leftover, 0, 0, 64);
    s.bits_hashed, s.leftover_offset := 0, 0;
    return CRYPTO_SUCCESS;
  }

  ghost predicate Erased(iv: seq<bv32>, leftover: seq<bv8>) {
    (forall w :: w in iv ==> w == 0) && (forall b :: b in leftover ==> b == 0)
  }

  function Concat(pieces: seq<seq<bv8>>): seq<bv8> {
    if pieces == [] then [] else Concat(pieces[..|pieces| - 1]) + pieces[|pieces| - 1]
  }

  /** The usage the header documents: init, any number of updates, final. However
      the message is cut into pieces, the digest is that of the whole. */
  method HashPieces(pieces: seq<array<bv8>>, ghost contents: seq<seq<bv8>>, digest: array<bv8>)
    requires digest.Length == 32
    requires |pieces| == |contents|
    requires forall i :: 0 <= i < |pieces| ==> pieces[i][..] == contents[i] && pieces[i] != digest
    requires Hashable(Concat(contents))
    modifies digest
    ensures digest[..] == Sha256(Concat(contents))
  {
    hide Sha256, CodeDigest, HashState.Valid;
    var s := new HashState();
    var code := Init(s);
    var i := 0;
    while i < |pieces|
      invariant 0 <= i <= |pieces|
      invariant s.Valid() && s.absorbed == Concat(contents[..i])
      invariant fresh(s) && fresh(s.iv) && fresh(s.leftover) && s.Shape()
      modifies s, s.iv, s.leftover
    {
      assert contents[..i + 1][..i] == contents[..i];
      code := Update(s, pieces[i], pieces[i].Length);
      assert pieces[i][..pieces[i].Length] == contents[i];
      i := i + 1;
    }
    assert contents[..|pieces|] == contents;
    code := Final(digest, s);
    assert digest[..32] == digest[..];
  }
}

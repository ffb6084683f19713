/** HMAC as section 2 of RFC 2104 defines it, over the four authenticated fields
    of a mailbox. */
module HmacSpec {
  import opened Bytes
  import opened Sha256Spec
  import opened MerkleDamgard

  /** The fields of a mailbox that its tag covers. */
  datatype Message = Message(sender_id: u32, msg_type: u32, msg_data: u32, counter: u32)

  /** The key, hashed when longer than a block, then zero-filled to one block. */
  function BlockKey(f: Compressor, key: seq<bv8>): (k: seq<bv8>)
    ensures |k| == 64
  {
    var k := if |key| > 64 then Hash(f, key) else key;
    k + seq(64 - |k|, _ => 0 as bv8)
  }

  function XorByte(b: bv8, pad: bv8): bv8 {
    b ^ pad
  }

  function XorWith(k: seq<bv8>, pad: bv8): (x: seq<bv8>)
    ensures |x| == |k|
  {
    seq(|k|, i requires 0 <= i < |k| => XorByte(k[i], pad))
  }

  /** What the inner hash is taken of. */
  function InnerText(f: Compressor, key: seq<bv8>, text: seq<bv8>): seq<bv8> {
    XorWith(BlockKey(f, key), 0x36) + text
  }

  function Inner(f: Compressor, key: seq<bv8>, text: seq<bv8>): (digest: seq<bv8>)
    ensures |digest| == 32
  {
    Hash(f, InnerText(f, key, text))
  }

  /** What the outer hash is taken of. */
  function OuterText(f: Compressor, key: seq<bv8>, text: seq<bv8>): seq<bv8> {
    XorWith(BlockKey(f, key), 0x5c) + Inner(f, key, text)
  }

  function Hmac(f: Compressor, key: seq<bv8>, text: seq<bv8>): (tag: seq<bv8>)
    ensures |tag| == 32
  {
    Hash(f, OuterText(f, key, text))
  }

  /** Byte `i` of a key as RFC 2104 extends it with zeros. */
  function KeyByte(key: seq<bv8>, i: nat): bv8 {
    if i < |key| then key[i] else 0
  }

  /** Under a key of at most a block, the inner text is the key with 0x36 on each
      byte and then the text; the outer text is the key with 0x5c on each byte and
      then the hash of the inner text; and a longer key stands for its hash. */
  lemma KeyedTexts(f: Compressor, key: seq<bv8>, text: seq<bv8>)
    ensures var inner, outer := InnerText(f, key, text), OuterText(f, key, text);
            && |inner| == 64 + |text| && inner[64..] == text
            && |outer| == 96 && outer[64..] == Hash(f, inner)
            && Hmac(f, key, text) == Hash(f, outer)
            && (|key| <= 64 ==> forall i :: 0 <= i < 64 ==>
                  inner[i] ^ 0x36 == KeyByte(key, i) && outer[i] ^ 0x5c == KeyByte(key, i))
    ensures |key| > 64 ==> Hmac(f, key, text) == Hmac(f, Hash(f, key), text)
  {
    hide Hash;
    forall i | |key| <= 64 && 0 <= i < 64
      ensures InnerText(f, key, text)[i] ^ 0x36 == KeyByte(key, i)
      ensures OuterText(f, key, text)[i] ^ 0x5c == KeyByte(key, i)
    {
      XorTwice(KeyByte(key, i), 0x36);
      XorTwice(KeyByte(key, i), 0x5c);
    }
  }

  lemma XorTwice(b: bv8, pad: bv8)
    ensures XorByte(b, pad) ^ pad == b
  {
  }

  /** The sixteen authenticated bytes: four big-endian fields. */
  function Encode(m: Message): (s: seq<bv8>)
    ensures |s| == 16
  {
    BigEndian(m.sender_id, 4) + BigEndian(m.msg_type, 4) + BigEndian(m.msg_data, 4) + BigEndian(m.counter, 4)
  }

  function Field(s: seq<bv8>, at: nat): u32
    requires at + 4 <= |s|
  {
    BigEndianValue(s[at..at + 4]) % 0x1_0000_0000
  }

  function Decode(s: seq<bv8>): Message
    requires |s| == 16
  {
    Message(Field(s, 0), Field(s, 4), Field(s, 8), Field(s, 12))
  }

  lemma DecodeEncode(m: Message)
    ensures Decode(Encode(m)) == m
    ensures BigEndianValue(Encode(m)[..4]) == m.sender_id && BigEndianValue(Encode(m)[4..8]) == m.msg_type
    ensures BigEndianValue(Encode(m)[8..12]) == m.msg_data && BigEndianValue(Encode(m)[12..]) == m.counter
  {
    hide BigEndian, BigEndianValue;
    Pow256Of4();
    var s := Encode(m);
    assert s[0..4] == BigEndian(m.sender_id, 4) && s[4..8] == BigEndian(m.msg_type, 4);
    assert s[8..12] == BigEndian(m.msg_data, 4) && s[12..16] == BigEndian(m.counter, 4);
    BigEndianRoundTrip(m.sender_id, 4);
    BigEndianRoundTrip(m.msg_type, 4);
    BigEndianRoundTrip(m.msg_data, 4);
    BigEndianRoundTrip(m.counter, 4);
  }

  /** The tag of a message under a key. */
  function Tag(key: seq<bv8>, m: Message): (tag: seq<bv8>)
    ensures |tag| == 32
  {
    Hmac(Compress, key, Encode(m))
  }

  lemma SamePrefix(prefix: seq<bv8>, x: seq<bv8>, y: seq<bv8>)
    requires x != y
    ensures prefix + x != prefix + y
  {
    var n := |prefix|;
    assert (prefix + x)[n..] == x && (prefix + y)[n..] == y;
  }

  /** The two computations compress `v1`, `m1` and `v2`, `m2` in the same one of
      their two hashes. */
  ghost predicate BothPerform(f: Compressor, key: seq<bv8>, x1: seq<bv8>, x2: seq<bv8>,
                              v1: Words, m1: Block, v2: Words, m2: Block) {
    || (Performs(f, InnerText(f, key, x1), v1, m1) && Performs(f, InnerText(f, key, x2), v2, m2))
    || (Performs(f, OuterText(f, key, x1), v1, m1) && Performs(f, OuterText(f, key, x2), v2, m2))
  }

  /** Two texts with one HMAC under one key: among the compressions of the one and
      those of the other are two with different inputs and one output. */
  lemma HmacCollision(f: Compressor, key: seq<bv8>, x1: seq<bv8>, x2: seq<bv8>)
    returns (v1: Words, m1: Block, v2: Words, m2: Block)
    requires 8 * (64 + |x1|) < 0x1_0000_0000_0000_0000 && 8 * (64 + |x2|) < 0x1_0000_0000_0000_0000
    requires x1 != x2 && Hmac(f, key, x1) == Hmac(f, key, x2)
    ensures Collides(f, v1, m1, v2, m2) && BothPerform(f, key, x1, x2, v1, m1, v2, m2)
  {
    hide Hash, Collides, BlockKey, Performs;
    var i1, i2 := Inner(f, key, x1), Inner(f, key, x2);
    if i1 == i2 {
      SamePrefix(XorWith(BlockKey(f, key), 0x36), x1, x2);
      v1, m1, v2, m2 := HashCollision(f, InnerText(f, key, x1), InnerText(f, key, x2));
    } else {
      SamePrefix(XorWith(BlockKey(f, key), 0x5c), i1, i2);
      v1, m1, v2, m2 := HashCollision(f, OuterText(f, key, x1), OuterText(f, key, x2));
    }
  }

  /** The tag computations of `a` and of `b` contain compressions of these inputs. */
  ghost predicate TagsPerform(key: seq<bv8>, a: Message, b: Message,
                              v1: Words, m1: Block, v2: Words, m2: Block) {
    BothPerform(Compress, key, Encode(a), Encode(b), v1, m1, v2, m2)
  }

  /** Mailboxes that differ in any authenticated field but share a tag: while the
      two tags were computed, SHA-256's compression function was given two different
      inputs and returned one output. */
  lemma TagCollision(key: seq<bv8>, a: Message, b: Message)
    returns (v1: Words, m1: Block, v2: Words, m2: Block)
    requires a != b && Tag(key, a) == Tag(key, b)
    ensures Collides(Compress, v1, m1, v2, m2) && TagsPerform(key, a, b, v1, m1, v2, m2)
  {
    hide Hmac, Collides, Compress, Encode, BothPerform;
    DecodeEncode(a);
    DecodeEncode(b);
    v1, m1, v2, m2 := HmacCollision(Compress, key, Encode(a), Encode(b));
  }
}

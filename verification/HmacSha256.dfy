/** include/crypto/hmac_sha256.c: computing and checking a mailbox tag. */
module HmacSha256 {
  import opened Bytes
  import opened Sha256Spec
  import opened MerkleDamgard
  import opened StreamingSha256
  import opened HmacSpec

  /** `hmac_key_init`: the first 32 bytes of the source become the stored key. */
  method KeyInit(store: array<bv8>, key: array<bv8>)
    requires store.Length == 32 && key.Length == 32 && store != key
    modifies store
    ensures store[..] == key[..]
  {
    var i := 0;
    while i < 32
      invariant 0 <= i <= 32
      invariant forall j :: 0 <= j < i ==> store[j] == key[j]
    {
      store[i] := key[i];
      i := i + 1;
    }
  }

  /** One field of the message, most significant byte first. */
  method StoreField(msg: array<bv8>, at: nat, field: u32)
    requires at + 4 <= msg.Length
    modifies msg
    ensures msg[..] == old(msg[..at]) + BigEndian(field, 4) + old(msg[at + 4..])
  {
    hide ShiftedByte, BigEndian;
    msg[at] := ShiftedByte(field, 3);
    msg[at + 1] := ShiftedByte(field, 2);
    msg[at + 2] := ShiftedByte(field, 1);
    msg[at + 3] := ShiftedByte(field, 0);
    BigEndianDigit(field, 4, 0);
    BigEndianDigit(field, 4, 1);
    BigEndianDigit(field, 4, 2);
    BigEndianDigit(field, 4, 3);
    assert msg[at..at + 4] == BigEndian(field, 4);
    assert msg[..] == msg[..at] + msg[at..at + 4] + msg[at + 4..];
  }

  method XorKey(k_padded: array<bv8>, pad: bv8) returns (x: array<bv8>)
    requires k_padded.Length == 64
    ensures fresh(x) && x[..] == XorWith(k_padded[..], pad)
  {
    hide XorByte;
    x := new bv8[64];
    var i := 0;
    while i < 64
      invariant 0 <= i <= 64
      invariant forall j :: 0 <= j < i ==> x[j] == XorByte(k_padded[j], pad)
    {
      x[i] := XorByte(k_padded[i], pad);
      i := i + 1;
    }
  }

  /** Both hashes of the tag have this shape: a padded key, then some bytes. */
  method HashTwo(first: array<bv8>, second: array<bv8>, digest: array<bv8>)
    requires digest.Length == 32
    requires 8 * (first.Length + second.Length) < 0x1_0000_0000_0000_0000
    modifies digest
    ensures digest[..] == Sha256(old(first[..] + second[..]))
  {
    hide Sha256, CodeDigest, HashState.Valid;
    ghost var message := first[..] + second[..];
    var state := new HashState();
    var code := Init(state);
    code := Update(state, first, first.Length);
    assert state.absorbed == first[..];
    code := Update(state, second, second.Length);
    assert state.absorbed == message;
    code := Final(digest, state);
    assert digest[..32] == digest[..];
  }

  /** `k_padded`: the stored key and thirty-two zero bytes. */
  method PadKey(key: array<bv8>) returns (k_padded: array<bv8>)
    requires key.Length == 32
    ensures fresh(k_padded) && k_padded.Length == 64 && k_padded[..] == BlockKey(Compress, key[..])
  {
    k_padded := new bv8[64];
    var i := 0;
    while i < 32
      invariant 0 <= i <= 32
      invariant forall j :: 0 <= j < i ==> k_padded[j] == key[j]
    {
      k_padded[i] := key[i];
      i := i + 1;
    }
    while i < 64
      invariant 32 <= i <= 64
      invariant forall j :: 0 <= j < 32 ==> k_padded[j] == key[j]
      invariant forall j :: 32 <= j < i ==> k_padded[j] == 0
    {
      k_padded[i] := 0;
      i := i + 1;
    }
  }

  /** `hmac_tag_compute`: the tag of RFC 2104 over the encoded fields. */
  method TagCompute(key: array<bv8>, mb: Message, tag_out: array<bv8>)
    requires key.Length == 32 && tag_out.Length == 32
    modifies tag_out
    ensures tag_out[..] == Tag(old(key[..]), mb)
  {
    hide BigEndian, Compress, BlockKey, XorWith, Hash;
    var msg := new bv8[16];
    StoreField(msg, 0, mb.sender_id);
    StoreField(msg, 4, mb.msg_type);
    StoreField(msg, 8, mb.msg_data);
    StoreField(msg, 12, mb.counter);
    assert msg[..] == Encode(mb);
    var k_padded := PadKey(key);
    var inner_hash := new bv8[32];
    var ipad_key := XorKey(k_padded, 0x36);
    HashTwo(ipad_key, msg, inner_hash);
    var opad_key := XorKey(k_padded, 0x5c);
    HashTwo(opad_key, inner_hash, tag_out);
  }

  /** `hmac_tag_verify`: the differences of all 32 bytes are or-ed together. */
  method TagVerify(key: array<bv8>, mb: Message, tag: array<bv8>) returns (result: bool)
    requires key.Length == 32 && tag.Length == 32
    ensures result <==> tag[..] == Tag(key[..], mb)
  {
    hide Tag;
    var expected := new bv8[32];
    TagCompute(key, mb, expected);
    ghost var good := expected[..];
    var change: bv8 := 0;
    var i := 0;
    while i < 32
      invariant 0 <= i <= 32
      invariant forall j :: i <= j < 32 ==> expected[j] == good[j]
      invariant change == 0 <==> tag[..i] == good[..i]
    {
      OrXor(change, expected[i], tag[i]);
      assert expected[i] == good[i];
      assert tag[..i + 1] == tag[..i] + [tag[i]] && good[..i + 1] == good[..i] + [good[i]];
      expected[i] := expected[i] ^ tag[i];
      change := change | expected[i];
      i := i + 1;
    }
    assert tag[..32] == tag[..] && good[..32] == good;
    result := change == 0;
  }
}

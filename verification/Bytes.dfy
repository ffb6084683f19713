/** Bytes, and numbers written as bytes.

    Lengths, counters and mailbox fields are natural numbers with an explicit
    width; bytes are bit vectors, because the hash code combines them bitwise. */
module Bytes {

  type u32 = x: int | 0 <= x < 0x1_0000_0000

  type u64 = x: int | 0 <= x < 0x1_0000_0000_0000_0000

  function ByteOf(n: nat): bv8
    requires n < 256
  {
    if n == 0 then 0 else ByteOf(n - 1) + 1
  }

  function ByteValue(b: bv8): nat
    decreases b
  {
    if b == 0 then 0 else ByteValue(b - 1) + 1
  }

  lemma Minus4(b: bv8)
    requires b >= 4
    ensures ByteValue(b) == ByteValue(b - 4) + 4
  {
    assert ByteValue(b - 2) == ByteValue(b - 4) + 2;
  }

  lemma Minus16(b: bv8)
    requires b >= 16
    ensures ByteValue(b) == ByteValue(b - 16) + 16
  {
    Minus4(b);
    Minus4(b - 4);
    Minus4(b - 8);
    Minus4(b - 12);
  }

  lemma Minus64(b: bv8)
    requires b >= 64
    ensures ByteValue(b) == ByteValue(b - 64) + 64
  {
    Minus16(b);
    Minus16(b - 16);
    Minus16(b - 32);
    Minus16(b - 48);
  }

  lemma LargestByte()
    ensures ByteValue(255) == 255
  {
    Minus64(255);
    Minus64(191);
    Minus64(127);
    Minus16(63);
    Minus16(47);
    Minus16(31);
    Minus4(15);
    Minus4(11);
    Minus4(7);
    assert ByteValue(3) == ByteValue(1) + 2;
  }

  lemma {:induction false} ByteRoundTrip(n: nat)
    requires n < 256
    ensures ByteValue(ByteOf(n)) == n
  {
    if n > 0 {
      ByteRoundTrip(n - 1);
      LargestByte();
    }
  }

  /** `n` as `width` bytes, most significant first; higher digits are dropped. */
  function BigEndian(n: nat, width: nat): (s: seq<bv8>)
    ensures |s| == width
  {
    if width == 0 then [] else BigEndian(n / 256, width - 1) + [ByteOf(n % 256)]
  }

  function BigEndianValue(s: seq<bv8>): nat {
    if s == [] then 0 else 256 * BigEndianValue(s[..|s| - 1]) + ByteValue(s[|s| - 1])
  }

  function Pow256(k: nat): nat {
    if k == 0 then 1 else 256 * Pow256(k - 1)
  }

  lemma {:induction false} BigEndianRoundTrip(n: nat, width: nat)
    requires n < Pow256(width)
    ensures BigEndianValue(BigEndian(n, width)) == n
  {
    if width > 0 {
      BigEndianRoundTrip(n / 256, width - 1);
      var s := BigEndian(n, width);
      assert s[..|s| - 1] == BigEndian(n / 256, width - 1);
      ByteRoundTrip(n % 256);
    }
  }

  lemma DivDiv(a: nat, c: nat)
    requires c > 0
    ensures a / 256 / c == a / (256 * c)
  {
    var q := a / 256 / c;
    DivUnique(a, 256 * c, q, 256 * (a / 256 % c) + a % 256);
  }

  lemma DivUnique(a: nat, d: nat, q: nat, r: nat)
    requires r < d && a == d * q + r
    ensures a / d == q
  {
    assert a == d * (a / d) + a % d;
    assert d * (a / d - q) == r - a % d;
    MulBounds(d, a / d - q);
  }

  lemma MulBounds(d: nat, k: int)
    ensures k >= 1 ==> d * k >= d
    ensures k <= -1 ==> d * k + d <= 0
  {
  }

  lemma Pow256Positive(k: nat)
    ensures Pow256(k) > 0
  {
  }

  /** `(uint8_t)(n >> 8 * i)`. */
  function ShiftedByte(n: nat, i: nat): bv8 {
    Pow256Positive(i);
    ByteOf(n / Pow256(i) % 256)
  }

  /** Digit `i` from the right is the shifted byte. */
  lemma {:induction false} BigEndianDigit(n: nat, width: nat, i: nat)
    requires i < width
    ensures BigEndian(n, width)[width - 1 - i] == ShiftedByte(n, i)
  {
    if i > 0 {
      BigEndianDigit(n / 256, width - 1, i - 1);
      Pow256Positive(i - 1);
      DivDiv(n, Pow256(i - 1));
    }
  }

  /** The same, least significant byte first: how the cores store a register. */
  function LittleEndian(n: nat, width: nat): (s: seq<bv8>)
    ensures |s| == width
  {
    if width == 0 then [] else [ByteOf(n % 256)] + LittleEndian(n / 256, width - 1)
  }

  function LittleEndianValue(s: seq<bv8>): nat {
    if s == [] then 0 else ByteValue(s[0]) + 256 * LittleEndianValue(s[1..])
  }

  lemma {:induction false} LittleEndianRoundTrip(n: nat, width: nat)
    requires n < Pow256(width)
    ensures LittleEndianValue(LittleEndian(n, width)) == n
  {
    if width > 0 {
      LittleEndianRoundTrip(n / 256, width - 1);
      var s := LittleEndian(n, width);
      assert s[1..] == LittleEndian(n / 256, width - 1);
      ByteRoundTrip(n % 256);
    }
  }

  lemma Pow256Of4()
    ensures Pow256(4) == 0x1_0000_0000
  {
  }

  lemma Pow256Of8()
    ensures Pow256(8) == 0x1_0000_0000_0000_0000
  {
    Pow256Of4();
    assert Pow256(8) == 256 * (256 * (256 * (256 * Pow256(4))));
  }

  /** Collecting differences: nothing collected means everything compared equal. */
  lemma OrXor(c: bv8, x: bv8, y: bv8)
    ensures c | (x ^ y) == 0 <==> c == 0 && x == y
  {
  }
}

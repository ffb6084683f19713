/** Where the constants of SHA-256 come from (FIPS 180-4, sections 4.2.2 and 5.3.3). */
module RoundConstants {
  import opened Sha256Spec

  /** The first sixty-four primes, by `ListIsThePrimes`. */
  const PRIMES: seq<nat> :=
    (([2, 3, 5, 7, 11, 13, 17, 19] +
      [23, 29, 31, 37, 41, 43, 47, 53]) +
     ([59, 61, 67, 71, 73, 79, 83, 89] +
      [97, 101, 103, 107, 109, 113, 127, 131])) +
    (([137, 139, 149, 151, 157, 163, 167, 173] +
      [179, 181, 191, 193, 197, 199, 211, 223]) +
     ([227, 229, 233, 239, 241, 251, 257, 263] +
      [269, 271, 277, 281, 283, 293, 307, 311]))

  // ---- The listed numbers are the primes below 312, in order ----

  predicate Divides(d: nat, n: nat)
    requires d > 0
  {
    n % d == 0
  }

  predicate IsPrime(n: nat) {
    n >= 2 && forall d: nat :: 2 <= d < n ==> !Divides(d, n)
  }

  /** No prime below 18 divides `n`, unless it is `n`. */
  predicate Sieved(n: nat) {
    && (n == 2 || n % 2 != 0) && (n == 3 || n % 3 != 0) && (n == 5 || n % 5 != 0)
    && (n == 7 || n % 7 != 0) && (n == 11 || n % 11 != 0) && (n == 13 || n % 13 != 0)
    && (n == 17 || n % 17 != 0)
  }

  lemma DividesProduct(p: nat, k: nat)
    requires p > 0
    ensures Divides(p, p * k)
  {
    if k > 0 {
      DividesProduct(p, k - 1);
      assert p * k == p * (k - 1) + p;
      assert (p * (k - 1) + p) % p == (p * (k - 1)) % p;
    }
  }

  lemma MultipleIsNotSieved(p: nat, k: nat)
    requires p in {2, 3, 5, 7, 11, 13, 17} && k > 1
    ensures !Sieved(p * k)
  {
    DividesProduct(p, k);
  }

  /** A product with a factor below 18 does not pass the sieve. */
  lemma ProductIsNotSieved(m: nat, e: nat)
    requires 2 <= m < 18 && 2 <= e
    ensures !Sieved(m * e)
  {
    hide Sieved;
    var p := if m % 2 == 0 then 2 else if m % 3 == 0 then 3 else m;
    assert m == p * (m / p);
    assert m * e == p * (m / p * e);
    MultipleIsNotSieved(p, m / p * e);
  }

  lemma SievedIsPrime(n: nat)
    requires 2 <= n < 324 && Sieved(n)
    ensures IsPrime(n)
  {
    hide Sieved;
    forall d: nat | 2 <= d < n
      ensures !Divides(d, n)
    {
      if Divides(d, n) {
        var e := n / d;
        assert n == d * e == e * d;
        assert e >= 2;
        ProductIsNotSieved(if d < 18 then d else e, if d < 18 then e else d);
      }
    }
  }

  /** The list as a set, for splitting into cases. */
  lemma Listed(n: nat)
    ensures n in PRIMES <==>
      n in {2, 3, 5, 7, 11, 13, 17, 19, 23, 29, 31, 37, 41, 43, 47, 53,
            59, 61, 67, 71, 73, 79, 83, 89, 97, 101, 103, 107, 109, 113, 127, 131,
            137, 139, 149, 151, 157, 163, 167, 173, 179, 181, 191, 193, 197, 199, 211, 223,
            227, 229, 233, 239, 241, 251, 257, 263, 269, 271, 277, 281, 283, 293, 307, 311}
  {
  }

  lemma ListedIsSieved(n: nat)
    requires n in PRIMES
    ensures n < 324 && Sieved(n)
  {
    hide PRIMES;
    Listed(n);
  }

  lemma NotDivided(p: nat, n: nat)
    requires p in {2, 3, 5} && !Divides(p, n)
    ensures n % 30 % p != 0
  {
    var q, r := n / 30, n % 30;
    if r % p == 0 {
      assert n == p * (30 / p * q + r / p);
      DividesProduct(p, 30 / p * q + r / p);
    }
  }

  /** What is no multiple of 2, 3 or 5 is listed, or is a larger multiple of 7, 11, 13 or 17. */
  lemma Spokes(n: nat)
    requires 5 < n < 312 && n % 30 % 2 != 0 && n % 30 % 3 != 0 && n % 30 % 5 != 0
    ensures n in PRIMES || exists p: nat :: p in {7, 11, 13, 17} && p < n && Divides(p, n)
  {
    hide PRIMES;
    Listed(n);
    var q, r := n / 30, n % 30;
    assert n == 30 * q + r;
    assert r in {1, 7, 11, 13, 17, 19, 23, 29};
    assert q in {0, 1, 2, 3, 4, 5, 6, 7, 8, 9, 10};
    assert n in PRIMES
        || n in {49, 77, 91, 119, 133, 161, 203, 217, 259, 287, 301}
        || n in {121, 143, 187, 209, 253}
        || n in {169, 221, 247, 299}
        || n in {289};
    assert n in {49, 77, 91, 119, 133, 161, 203, 217, 259, 287, 301} ==> Divides(7, n);
    assert n in {121, 143, 187, 209, 253} ==> Divides(11, n);
    assert n in {169, 221, 247, 299} ==> Divides(13, n);
    assert n in {289} ==> Divides(17, n);
  }

  lemma PrimeIsListed(n: nat)
    requires IsPrime(n) && n < 312
    ensures n in PRIMES
  {
    if n > 5 {
      NotDivided(2, n);
      NotDivided(3, n);
      NotDivided(5, n);
      Spokes(n);
    } else {
      assert n == 4 ==> Divides(2, n);
    }
  }

  lemma Increasing()
    ensures forall t :: 0 <= t < 63 ==> PRIMES[t] < PRIMES[t + 1]
  {
  }

  /** The table is the primes below 312, each once and in order. */
  lemma ListIsThePrimes()
    ensures |PRIMES| == 64
    ensures forall n: nat :: n in PRIMES <==> n < 312 && IsPrime(n)
    ensures forall t :: 0 <= t < 63 ==> PRIMES[t] < PRIMES[t + 1]
  {
    forall n: nat | n in PRIMES
      ensures n < 312 && IsPrime(n)
    {
      ListedIsSieved(n);
      SievedIsPrime(n);
    }
    forall n: nat | n < 312 && IsPrime(n)
      ensures n in PRIMES
    {
      PrimeIsListed(n);
    }
    Increasing();
  }

  // ---- The constants are their roots ----

  function Square(r: nat): nat {
    r * r
  }

  function Cube(r: nat): nat {
    r * r * r
  }

  /** `k` is the first 32 bits of the fractional part of the cube root of `p`, whose
      whole part is `whole`: 2^32 times the root lies in [r, r + 1). */
  predicate CubeRoot(p: nat, whole: nat, k: nat) {
    var r := whole * 0x1_0000_0000 + k;
    k < 0x1_0000_0000 && Cube(r) <= p * 0x1_0000_0000_0000_0000_0000_0000 < Cube(r + 1)
  }

  predicate SquareRoot(p: nat, whole: nat, k: nat) {
    var r := whole * 0x1_0000_0000 + k;
    k < 0x1_0000_0000 && Square(r) <= p * 0x1_0000_0000_0000_0000 < Square(r + 1)
  }

  /** The whole part of the cube root of a number below 343. */
  function WholePart(p: nat): nat {
    if p < 8 then 1 else if p < 27 then 2 else if p < 64 then 3
    else if p < 125 then 4 else if p < 216 then 5 else 6
  }

  /** Round constant `t` is what the standard says it is. */
  predicate RoundConstant(t: nat)
    requires t < 64
  {
    CubeRoot(PRIMES[t], WholePart(PRIMES[t]), K[t] as nat)
  }

  lemma Constants0()
    ensures RoundConstant(0) && RoundConstant(1) && RoundConstant(2) && RoundConstant(3)
    ensures RoundConstant(4) && RoundConstant(5) && RoundConstant(6) && RoundConstant(7)
  {
  }

  lemma Constants8()
    ensures RoundConstant(8) && RoundConstant(9) && RoundConstant(10) && RoundConstant(11)
    ensures RoundConstant(12) && RoundConstant(13) && RoundConstant(14) && RoundConstant(15)
  {
  }

  lemma Constants16()
    ensures RoundConstant(16) && RoundConstant(17) && RoundConstant(18) && RoundConstant(19)
    ensures RoundConstant(20) && RoundConstant(21) && RoundConstant(22) && RoundConstant(23)
  {
  }

  lemma Constants24()
    ensures RoundConstant(24) && RoundConstant(25) && RoundConstant(26) && RoundConstant(27)
    ensures RoundConstant(28) && RoundConstant(29) && RoundConstant(30) && RoundConstant(31)
  {
  }

  lemma Constants32()
    ensures RoundConstant(32) && RoundConstant(33) && RoundConstant(34) && RoundConstant(35)
    ensures RoundConstant(36) && RoundConstant(37) && RoundConstant(38) && RoundConstant(39)
  {
  }

  lemma Constants40()
    ensures RoundConstant(40) && RoundConstant(41) && RoundConstant(42) && RoundConstant(43)
    ensures RoundConstant(44) && RoundConstant(45) && RoundConstant(46) && RoundConstant(47)
  {
  }

  lemma Constants48()
    ensures RoundConstant(48) && RoundConstant(49) && RoundConstant(50) && RoundConstant(51)
    ensures RoundConstant(52) && RoundConstant(53) && RoundConstant(54) && RoundConstant(55)
  {
  }

  lemma Constants56()
    ensures RoundConstant(56) && RoundConstant(57) && RoundConstant(58) && RoundConstant(59)
    ensures RoundConstant(60) && RoundConstant(61) && RoundConstant(62) && RoundConstant(63)
  {
  }

  /** The sixty-four words of the compression loop are the cube roots of the first
      sixty-four primes, to 32 fractional bits. */
  lemma RoundConstantsAreCubeRoots()
    ensures forall t :: 0 <= t < 64 ==> RoundConstant(t)
  {
    hide RoundConstant;
    forall t | 0 <= t < 64
      ensures RoundConstant(t)
    {
      if t < 8 {
        Constants0();
      } else if t < 16 {
        Constants8();
      } else if t < 24 {
        Constants16();
      } else if t < 32 {
        Constants24();
      } else if t < 40 {
        Constants32();
      } else if t < 48 {
        Constants40();
      } else if t < 56 {
        Constants48();
      } else {
        Constants56();
      }
    }
  }

  /** The initial hash value is the square roots of the first eight primes. */
  lemma InitialValueIsSquareRoots()
    ensures SquareRoot(2, 1, H0.a as nat)
    ensures SquareRoot(3, 1, H0.b as nat)
    ensures SquareRoot(5, 2, H0.c as nat)
    ensures SquareRoot(7, 2, H0.d as nat)
    ensures SquareRoot(11, 3, H0.e as nat)
    ensures SquareRoot(13, 3, H0.f as nat)
    ensures SquareRoot(17, 4, H0.g as nat)
    ensures SquareRoot(19, 4, H0.h as nat)
  {
    assert H0.a as nat == 0x6a09e667 && SquareRoot(2, 1, 0x6a09e667);
    assert H0.b as nat == 0xbb67ae85 && SquareRoot(3, 1, 0xbb67ae85);
    assert H0.c as nat == 0x3c6ef372 && SquareRoot(5, 2, 0x3c6ef372);
    assert H0.d as nat == 0xa54ff53a && SquareRoot(7, 2, 0xa54ff53a);
    assert H0.e as nat == 0x510e527f && SquareRoot(11, 3, 0x510e527f);
    assert H0.f as nat == 0x9b05688c && SquareRoot(13, 3, 0x9b05688c);
    assert H0.g as nat == 0x1f83d9ab && SquareRoot(17, 4, 0x1f83d9ab);
    assert H0.h as nat == 0x5be0cd19 && SquareRoot(19, 4, 0x5be0cd19);
  }
}

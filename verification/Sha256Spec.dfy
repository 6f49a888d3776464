/** SHA-256 as FIPS 180-4 defines it: padding in section 5.1.1, the initial value in section
    5.3.3, the functions in section 4.1.2 and the computation in section 6.2.2. */
module Sha256Spec {

  type Octets = seq<bv8>

  /** Section 4.2.2, in rows of eight. */
  const KTABLE: seq<seq<bv32>> := [
    [0x428a2f98, 0x71374491, 0xb5c0fbcf, 0xe9b5dba5, 0x3956c25b, 0x59f111f1, 0x923f82a4, 0xab1c5ed5],
    [0xd807aa98, 0x12835b01, 0x243185be, 0x550c7dc3, 0x72be5d74, 0x80deb1fe, 0x9bdc06a7, 0xc19bf174],
    [0xe49b69c1, 0xefbe4786, 0x0fc19dc6, 0x240ca1cc, 0x2de92c6f, 0x4a7484aa, 0x5cb0a9dc, 0x76f988da],
    [0x983e5152, 0xa831c66d, 0xb00327c8, 0xbf597fc7, 0xc6e00bf3, 0xd5a79147, 0x06ca6351, 0x14292967],
    [0x27b70a85, 0x2e1b2138, 0x4d2c6dfc, 0x53380d13, 0x650a7354, 0x766a0abb, 0x81c2c92e, 0x92722c85],
    [0xa2bfe8a1, 0xa81a664b, 0xc24b8b70, 0xc76c51a3, 0xd192e819, 0xd6990624, 0xf40e3585, 0x106aa070],
    [0x19a4c116, 0x1e376c08, 0x2748774c, 0x34b0bcb5, 0x391c0cb3, 0x4ed8aa4a, 0x5b9cca4f, 0x682e6ff3],
    [0x748f82ee, 0x78a5636f, 0x84c87814, 0x8cc70208, 0x90befffa, 0xa4506ceb, 0xbef9a3f7, 0xc67178f2]]

  function K(t: nat): bv32
    requires t < 64
  {
    KTABLE[t / 8][t % 8]
  }

  /** Addition modulo 2^32. */
  function Plus(x: bv32, y: bv32): bv32 { x + y }

  // ROTR n (x) is (x >> n) | (x << 32 - n).

  function Ch(x: bv32, y: bv32, z: bv32): bv32 { (x & y) ^ (!x & z) }
  function Maj(x: bv32, y: bv32, z: bv32): bv32 { (x & y) ^ (x & z) ^ (y & z) }
  function BigSigma0(x: bv32): bv32 { ((x >> 2) | (x << 30)) ^ ((x >> 13) | (x << 19)) ^ ((x >> 22) | (x << 10)) }
  function BigSigma1(x: bv32): bv32 { ((x >> 6) | (x << 26)) ^ ((x >> 11) | (x << 21)) ^ ((x >> 25) | (x << 7)) }
  function SmallSigma0(x: bv32): bv32 { ((x >> 7) | (x << 25)) ^ ((x >> 18) | (x << 14)) ^ (x >> 3) }
  function SmallSigma1(x: bv32): bv32 { ((x >> 17) | (x << 15)) ^ ((x >> 19) | (x << 13)) ^ (x >> 10) }

  datatype State = State(a: bv32, b: bv32, c: bv32, d: bv32, e: bv32, f: bv32, g: bv32, h: bv32)

  const IV := State(0x6a09e667, 0xbb67ae85, 0x3c6ef372, 0xa54ff53a, 0x510e527f, 0x9b05688c, 0x1f83d9ab, 0x5be0cd19)

  function BigEndianWord(b0: bv8, b1: bv8, b2: bv8, b3: bv8): bv32 {
    ((b0 as bv32) << 24) | ((b1 as bv32) << 16) | ((b2 as bv32) << 8) | (b3 as bv32)
  }

  /** Step 1: the message schedule. */
  function W(block: Octets, t: nat): bv32
    requires |block| == 64
  {
    if t < 16 then BigEndianWord(block[4 * t], block[4 * t + 1], block[4 * t + 2], block[4 * t + 3])
    else Plus(Plus(Plus(SmallSigma1(W(block, t - 2)), W(block, t - 7)), SmallSigma0(W(block, t - 15))),
              W(block, t - 16))
  }

  /** Step 3: one round. */
  function Round(s: State, k: bv32, w: bv32): State {
    var t1 := Plus(Plus(Plus(Plus(s.h, BigSigma1(s.e)), Ch(s.e, s.f, s.g)), k), w);
    var t2 := Plus(BigSigma0(s.a), Maj(s.a, s.b, s.c));
    State(Plus(t1, t2), s.a, s.b, s.c, Plus(s.d, t1), s.e, s.f, s.g)
  }

  function Rounds(s: State, block: Octets, t: nat): State
    requires |block| == 64 && t <= 64
  {
    if t == 0 then s else Round(Rounds(s, block, t - 1), K(t - 1), W(block, t - 1))
  }

  function Add(s: State, r: State): State {
    State(Plus(s.a, r.a), Plus(s.b, r.b), Plus(s.c, r.c), Plus(s.d, r.d),
          Plus(s.e, r.e), Plus(s.f, r.f), Plus(s.g, r.g), Plus(s.h, r.h))
  }

  /** Step 4 closes one block. */
  function Compress(s: State, block: Octets): State
    requires |block| == 64
  {
    Add(Rounds(s, block, 64), s)
  }

  /** All blocks of a padded message, first to last. */
  function CompressAll(s: State, m: Octets): State
    requires |m| % 64 == 0
  {
    if m == [] then s else Compress(CompressAll(s, m[..|m| - 64]), m[|m| - 64..])
  }

  /** The length in bits as eight bytes, most significant first. */
  function LengthOctets(bytes: nat): (r: Octets)
    ensures |r| == 8
  {
    seq(8, i requires 0 <= i < 8 => LengthOctet(bytes, i))
  }

  function Pow2x8(n: nat): (p: nat)
    ensures p > 0
  {
    if n == 0 then 1 else 0x100 * Pow2x8(n - 1)
  }

  function LengthOctet(bytes: nat, i: nat): bv8
    requires i < 8
  {
    ((8 * bytes) / Pow2x8(7 - i) % 0x100) as bv8
  }

  function Zeros(k: nat): (z: Octets)
    ensures |z| == k && forall i :: 0 <= i < k ==> z[i] == 0
  {
    seq(k, _ => 0)
  }

  /** How many zero bytes bring message, marker and length to a multiple of the block. */
  function ZeroCount(len: nat): (k: nat)
    ensures k < 64 && (len + 1 + k) % 64 == 56
  {
    (119 - len % 64) % 64
  }

  /** Section 5.1.1. */
  function Pad(m: Octets): (r: Octets)
    ensures |r| % 64 == 0
  {
    m + [0x80] + Zeros(ZeroCount(|m|)) + LengthOctets(|m|)
  }

  lemma Powers()
    ensures Pow2x8(0) == 1 && Pow2x8(1) == 0x100 && Pow2x8(2) == 0x1_0000 && Pow2x8(3) == 0x100_0000
    ensures Pow2x8(4) == 0x1_0000_0000 && Pow2x8(5) == 0x100_0000_0000 && Pow2x8(6) == 0x1_0000_0000_0000
    ensures Pow2x8(7) == 0x100_0000_0000_0000
  {}

  lemma {:induction false} OctetOf(x: nat) returns (b: bv8)
    requires x < 0x100
    ensures b as int == x
  {
    if x == 0 {
      b := 0;
    } else {
      var c := OctetOf(x - 1);
      b := c + 1;
    }
  }

  lemma SameOctet(x: nat, b: bv8)
    requires b as int == x
    ensures x as bv8 == b
  {}

  /** An octet of the length is the digit of its weight. */
  lemma LengthDigit(bytes: nat, i: nat)
    requires i < 8
    ensures LengthOctets(bytes)[i] as int == (8 * bytes) / Pow2x8(7 - i) % 0x100
  {
    hide Pow2x8;
    var x := (8 * bytes) / Pow2x8(7 - i) % 0x100;
    var b := OctetOf(x);
    SameOctet(x, b);
    assert LengthOctets(bytes)[i] == LengthOctet(bytes, i);
  }

  lemma TwoDigits(n: nat)
    ensures n % 0x1_0000 == n / 0x100 % 0x100 * 0x100 + n % 0x100
  {}

  lemma TwoQuarters(n: nat)
    ensures n % 0x1_0000_0000 == n / 0x1_0000 % 0x1_0000 * 0x1_0000 + n % 0x1_0000
    ensures n / 0x1_0000 / 0x100 == n / 0x100_0000
  {}

  lemma FourDigits(n: nat)
    ensures n % 0x1_0000_0000
         == n / 0x100_0000 % 0x100 * 0x100_0000 + n / 0x1_0000 % 0x100 * 0x1_0000
            + n / 0x100 % 0x100 * 0x100 + n % 0x100
  {
    TwoDigits(n);
    TwoQuarters(n);
    TwoDigits(n / 0x1_0000);
  }

  lemma TwoHalves(n: nat)
    ensures n % 0x1_0000_0000_0000_0000 == n / 0x1_0000_0000 % 0x1_0000_0000 * 0x1_0000_0000 + n % 0x1_0000_0000
  {}

  lemma UpperDigits(n: nat)
    ensures n / 0x1_0000_0000 / 0x100 == n / 0x100_0000_0000
    ensures n / 0x1_0000_0000 / 0x1_0000 == n / 0x1_0000_0000_0000
    ensures n / 0x1_0000_0000 / 0x100_0000 == n / 0x100_0000_0000_0000
  {}

  lemma EightDigits(n: nat, d0: nat, d1: nat, d2: nat, d3: nat, d4: nat, d5: nat, d6: nat, d7: nat)
    requires d0 == n / 0x100_0000_0000_0000 % 0x100 && d1 == n / 0x1_0000_0000_0000 % 0x100
    requires d2 == n / 0x100_0000_0000 % 0x100 && d3 == n / 0x1_0000_0000 % 0x100
    requires d4 == n / 0x100_0000 % 0x100 && d5 == n / 0x1_0000 % 0x100 && d6 == n / 0x100 % 0x100 && d7 == n % 0x100
    ensures n % 0x1_0000_0000_0000_0000
         == d0 * 0x100_0000_0000_0000 + d1 * 0x1_0000_0000_0000 + d2 * 0x100_0000_0000 + d3 * 0x1_0000_0000
            + d4 * 0x100_0000 + d5 * 0x1_0000 + d6 * 0x100 + d7
  {
    UpperDigits(n);
    FourDigits(n / 0x1_0000_0000);
    FourDigits(n);
    TwoHalves(n);
  }

  /** Read with the first octet as the most significant, the length octets are the message's bits
      modulo 2^64. */
  lemma LengthIsBits(bytes: nat)
    ensures var l := LengthOctets(bytes);
      8 * bytes % 0x1_0000_0000_0000_0000
      == l[0] as int * 0x100_0000_0000_0000 + l[1] as int * 0x1_0000_0000_0000 + l[2] as int * 0x100_0000_0000
         + l[3] as int * 0x1_0000_0000 + l[4] as int * 0x100_0000 + l[5] as int * 0x1_0000 + l[6] as int * 0x100
         + l[7] as int
  {
    hide LengthOctets, Pow2x8;
    Powers();
    var l := LengthOctets(bytes);
    forall i | 0 <= i < 8 ensures l[i] as int == (8 * bytes) / Pow2x8(7 - i) % 0x100 { LengthDigit(bytes, i); }
    EightDigits(8 * bytes, l[0] as int, l[1] as int, l[2] as int, l[3] as int, l[4] as int, l[5] as int,
                l[6] as int, l[7] as int);
  }

  lemma LowDigits(n: nat, hi: nat, lo: nat, p: nat)
    requires n == 0x100 * hi + lo && hi < 0x100 && lo < 0x100 && p >= 0x1_0000
    ensures n % 0x100 == lo && n / 0x100 % 0x100 == hi && n / p % 0x100 == 0
  {
    assert n / p == 0;
  }

  lemma AnOctetOf(bytes: nat, i: nat, b: bv8)
    requires i < 8 && b as int == (8 * bytes) / Pow2x8(7 - i) % 0x100
    ensures LengthOctets(bytes)[i] == b
  {
    hide Pow2x8;
    SameOctet((8 * bytes) / Pow2x8(7 - i) % 0x100, b);
    assert LengthOctets(bytes)[i] == LengthOctet(bytes, i);
  }

  /** A length below 2^16 bits has two octets. */
  lemma ShortLength(bytes: nat, hi: bv8, lo: bv8)
    requires 8 * bytes == 0x100 * (hi as int) + lo as int
    ensures LengthOctets(bytes) == [0, 0, 0, 0, 0, 0, hi, lo]
  {
    hide Pow2x8, LengthOctets;
    Powers();
    forall i | 0 <= i < 6 ensures LengthOctets(bytes)[i] == 0 {
      LowDigits(8 * bytes, hi as int, lo as int, Pow2x8(7 - i));
      AnOctetOf(bytes, i, 0);
    }
    LowDigits(8 * bytes, hi as int, lo as int, 0x1_0000);
    AnOctetOf(bytes, 6, hi);
    AnOctetOf(bytes, 7, lo);
  }

  /** Section 5.1.1 octet by octet: the message, one marker bit, the fewest zeros, and the length. */
  lemma PadIs(m: Octets)
    ensures |Pad(m)| % 64 == 0 && |m| + 9 <= |Pad(m)| < |m| + 73
    ensures Pad(m)[..|m|] == m && Pad(m)[|m|] == 0x80
    ensures forall i :: |m| < i < |Pad(m)| - 8 ==> Pad(m)[i] == 0
    ensures Pad(m)[|Pad(m)| - 8..] == LengthOctets(|m|)
  {
    hide LengthOctets;
    var z, l := Zeros(ZeroCount(|m|)), LengthOctets(|m|);
    assert Pad(m) == m + [0x80] + z + l;
  }

  function WordOctets(x: bv32): (r: Octets)
    ensures |r| == 4
  {
    [((x >> 24) & 0xff) as bv8, ((x >> 16) & 0xff) as bv8, ((x >> 8) & 0xff) as bv8, (x & 0xff) as bv8]
  }

  function WordsOctets(ws: seq<bv32>): (r: Octets)
    ensures |r| == 4 * |ws|
  {
    if ws == [] then [] else WordsOctets(ws[..|ws| - 1]) + WordOctets(ws[|ws| - 1])
  }

  function Digest(s: State): (r: Octets)
    ensures |r| == 32
  {
    WordsOctets([s.a, s.b, s.c, s.d, s.e, s.f, s.g, s.h])
  }

  function Sha256(m: Octets): Octets {
    Digest(CompressAll(IV, Pad(m)))
  }

  lemma {:induction false} CompressAllConcat(s: State, m: Octets, r: Octets)
    requires |m| % 64 == 0 && |r| % 64 == 0
    ensures CompressAll(s, m + r) == CompressAll(CompressAll(s, m), r)
    decreases |r|
  {
    hide Compress;
    if r == [] {
      assert m + r == m;
    } else {
      var r', last := r[..|r| - 64], r[|r| - 64..];
      assert (m + r)[..|m + r| - 64] == m + r' && (m + r)[|m + r| - 64..] == last;
      CompressAllConcat(s, m, r');
    }
  }
}

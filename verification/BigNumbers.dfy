/** The parts of math/big and encoding/binary that the difficulty check uses. */
module BigNumbers {
  import opened MachineTypes

  /** One more than the largest 64-bit word. */
  const WORD := 0x1_0000_0000_0000_0000

  /** big.Int.SetBytes, and a big-endian load of any width. */
  function FromBig(s: seq<byte>): nat {
    if s == [] then 0 else FromBig(s[..|s| - 1]) * 0x100 + s[|s| - 1]
  }

  /** big.Int.Bytes: big-endian, no leading zero. */
  function ToBig(x: nat): (s: seq<byte>)
    ensures s != [] ==> s[0] != 0
  {
    if x == 0 then [] else ToBig(x / 0x100) + [x % 0x100]
  }

  function Reversed(s: seq<byte>): (r: seq<byte>)
    ensures |r| == |s| && forall i :: 0 <= i < |r| ==> r[i] == s[|s| - 1 - i]
  {
    seq(|s|, i requires 0 <= i < |s| => s[|s| - 1 - i])
  }

  /** A little-endian load. */
  function FromLittle(s: seq<byte>): nat { FromBig(Reversed(s)) }

  function Pow256(n: nat): (p: nat)
    ensures p > 0
  {
    if n == 0 then 1 else Pow256(n - 1) * 0x100
  }

  lemma PowersOf256()
    ensures Pow256(8) == WORD
    ensures Pow256(16) == WORD * WORD
    ensures Pow256(24) == WORD * WORD * WORD
    ensures Pow256(32) == WORD * WORD * WORD * WORD
  {
    assert Pow256(4) == 0x1_0000_0000 && Pow256(8) == 0x1_0000_0000_0000_0000;
    assert Pow256(12) == Pow256(8) * 0x1_0000_0000 && Pow256(16) == Pow256(12) * 0x1_0000_0000;
    assert Pow256(20) == Pow256(16) * 0x1_0000_0000 && Pow256(24) == Pow256(20) * 0x1_0000_0000;
    assert Pow256(28) == Pow256(24) * 0x1_0000_0000 && Pow256(32) == Pow256(28) * 0x1_0000_0000;
  }

  lemma DivTwice(n: nat, p: nat)
    requires p > 0
    ensures n / (0x100 * p) == n / 0x100 / p
  {
    var q, r := n / 0x100, n % 0x100;
    var d, m := q / p, q % p;
    assert n == 0x100 * (p * d + m) + r && m <= p - 1;
    assert n == (0x100 * p) * d + (0x100 * m + r) && 0x100 * m + r < 0x100 * p;
    QuotientIs(n, 0x100 * p, d, 0x100 * m + r);
  }

  lemma QuotientIs(n: nat, p: nat, d: nat, m: nat)
    requires p > 0 && n == p * d + m && m < p
    ensures n / p == d
  {
    var q := n / p;
    assert n == p * q + n % p;
    assert q > d ==> p * q >= p * (d + 1);
    assert q < d ==> p * d >= p * (q + 1);
  }

  /** The byte i places from the end is the digit of weight 256^i. */
  lemma {:induction false} DigitOfBig(s: seq<byte>, i: nat)
    requires i < |s|
    ensures FromBig(s) / Pow256(i) % 0x100 == s[|s| - 1 - i]
    decreases i
  {
    var n := |s| - 1;
    assert FromBig(s) / 0x100 == FromBig(s[..n]) && FromBig(s) % 0x100 == s[n];
    if i > 0 {
      DigitOfBig(s[..n], i - 1);
      DivTwice(FromBig(s), Pow256(i - 1));
    }
  }

  lemma {:induction false} ToBigRoundTrip(x: nat)
    ensures FromBig(ToBig(x)) == x
  {
    if x > 0 {
      ToBigRoundTrip(x / 0x100);
      assert ToBig(x)[..|ToBig(x)| - 1] == ToBig(x / 0x100);
    }
  }

  /** A number below 256^n has at most n bytes. */
  lemma {:induction false} ToBigLength(x: nat, n: nat)
    requires x < Pow256(n)
    ensures |ToBig(x)| <= n
  {
    if x > 0 && n > 0 { ToBigLength(x / 0x100, n - 1); }
  }

  lemma OneDigitMore(x: nat, p: nat, y: nat, d: nat)
    ensures (x * p + y) * 0x100 + d == x * (p * 0x100) + (y * 0x100 + d)
  {}

  lemma {:induction false} FromBigConcat(s: seq<byte>, r: seq<byte>)
    ensures FromBig(s + r) == FromBig(s) * Pow256(|r|) + FromBig(r)
    decreases |r|
  {
    if r == [] {
      assert s + r == s;
    } else {
      var n := |r| - 1;
      assert (s + r)[..|s| + n] == s + r[..n];
      FromBigConcat(s, r[..n]);
      OneDigitMore(FromBig(s), Pow256(n), FromBig(r[..n]), r[n] as int);
    }
  }

  lemma {:induction false} FromBigBound(s: seq<byte>)
    ensures FromBig(s) < Pow256(|s|)
    decreases |s|
  {
    if s != [] { FromBigBound(s[..|s| - 1]); }
  }

  lemma {:induction false} FromBigZeros(s: seq<byte>)
    requires forall i :: 0 <= i < |s| ==> s[i] == 0
    ensures FromBig(s) == 0
    decreases |s|
  {
    if s != [] { FromBigZeros(s[..|s| - 1]); }
  }

  lemma AppendWord(s: seq<byte>, r: seq<byte>)
    requires |r| == 8
    ensures FromBig(s + r) == FromBig(s) * WORD + FromBig(r)
    ensures FromBig(r) < WORD
  {
    hide FromBig;
    FromBigConcat(s, r);
    FromBigBound(r);
    PowersOf256();
  }

  /** Four eight-byte words, most significant first. */
  lemma FourWords(s: seq<byte>)
    requires |s| == 32
    ensures FromBig(s) == ((FromBig(s[0..8]) * WORD + FromBig(s[8..16])) * WORD + FromBig(s[16..24])) * WORD +
            FromBig(s[24..32])
    ensures FromBig(s[0..8]) < WORD && FromBig(s[8..16]) < WORD && FromBig(s[16..24]) < WORD
            && FromBig(s[24..32]) < WORD
  {
    hide FromBig;
    assert s == s[..24] + s[24..32] && s[..24] == s[..16] + s[16..24] && s[..16] == s[0..8] + s[8..16];
    AppendWord(s[..24], s[24..32]);
    AppendWord(s[..16], s[16..24]);
    AppendWord(s[0..8], s[8..16]);
    AppendWord(s[8..16], s[0..8]);
  }
}

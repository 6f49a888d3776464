/** The ends of both SHA-256 files, which share them word for word: the initial state, the padded
    tail of a message, and the digest bytes. */
module Sha256Tail {
  import opened Sha256Spec

  function ToState(st: seq<bv32>): State
    requires |st| == 8
  {
    State(st[0], st[1], st[2], st[3], st[4], st[5], st[6], st[7])
  }

  /** The state after the given number of blocks of m from at on. */
  function AfterBlocks(s: State, m: Octets, at: nat, blocks: nat): State
    requires at + 64 * blocks <= |m|
  {
    CompressAll(s, m[at..at + 64 * blocks])
  }

  lemma NoBlocksYet(s: State, m: Octets, at: nat)
    requires at <= |m|
    ensures AfterBlocks(s, m, at, 0) == s
  {}

  lemma OneMoreBlock(s: State, m: Octets, at: nat, i: nat)
    requires at + 64 * (i + 1) <= |m|
    ensures AfterBlocks(s, m, at, i + 1) == Compress(AfterBlocks(s, m, at, i), m[at + 64 * i..at + 64 * i + 64])
  {
    hide Compress;
    var all := m[at..at + 64 * (i + 1)];
    assert all[..|all| - 64] == m[at..at + 64 * i] && all[|all| - 64..] == m[at + 64 * i..at + 64 * i + 64];
  }

  /** Blocks in two goes are the same blocks. */
  lemma InTwoGoes(s: State, m: Octets, i: nat, j: nat)
    requires i <= j && 64 * j <= |m|
    ensures AfterBlocks(AfterBlocks(s, m, 0, i), m, 64 * i, j - i) == AfterBlocks(s, m, 0, j)
  {
    hide CompressAll;
    CompressAllConcat(s, m[0..64 * i], m[64 * i..64 * j]);
    assert m[0..64 * j] == m[0..64 * i] + m[64 * i..64 * j];
  }

  /** The length field is written for the 64-bit bit count, most significant byte first. */
  lemma LengthByte(total: nat, i: nat)
    requires i < 8 && 8 * total < 0x1_0000_0000_0000_0000
    ensures LengthOctets(total)[i] == ((8 * total) % 0x1_0000_0000_0000_0000 / Pow2x8(7 - i) % 0x100) as bv8
  {}

  /** The tail block or blocks: the bytes left over, the marker, zeros, and the bit count. */
  method PadTail(m: Octets, at: nat, total: nat) returns (pad: array<bv8>, nblk: nat)
    requires at <= |m| < at + 64 && 8 * total < 0x1_0000_0000_0000_0000
    ensures fresh(pad) && pad.Length == 128 && nblk == (if |m| - at >= 56 then 2 else 1)
    ensures pad[..nblk * 64] == m[at..] + [0x80] + Zeros(nblk * 64 - 9 - (|m| - at)) + LengthOctets(total)
  {
    hide Pow2x8, LengthOctets, Zeros;
    pad := new bv8[128](_ => 0);
    var tailLen := |m| - at;
    forall i | 0 <= i < tailLen { pad[i] := m[at + i]; }
    pad[tailLen] := 0x80;
    nblk := if tailLen >= 56 then 2 else 1;
    var bits := (8 * total) % 0x1_0000_0000_0000_0000;
    var lenAt := nblk * 64 - 8;
    ghost var head := pad[..];
    for i := 0 to 8
      invariant forall k :: 0 <= k < i ==> pad[lenAt + k] == LengthOctets(total)[k]
      invariant forall k :: 0 <= k < lenAt ==> pad[k] == head[k]
    {
      LengthByte(total, i);
      pad[lenAt + i] := (bits / Pow2x8(7 - i) % 0x100) as bv8;
    }
    PadLayout(pad[..nblk * 64], m[at..], LengthOctets(total));
  }

  lemma PadLayout(pad: Octets, tail: Octets, len: Octets)
    requires |len| == 8 && |pad| >= |tail| + 9
    requires forall k :: 0 <= k < |tail| ==> pad[k] == tail[k]
    requires pad[|tail|] == 0x80
    requires forall k :: |tail| < k < |pad| - 8 ==> pad[k] == 0
    requires forall k :: 0 <= k < 8 ==> pad[|pad| - 8 + k] == len[k]
    ensures pad == tail + [0x80] + Zeros(|pad| - 9 - |tail|) + len
  {
    assert pad[|pad| - 8..] == len;
    assert pad[..|tail|] == tail;
    assert pad[|tail| + 1..|pad| - 8] == Zeros(|pad| - 9 - |tail|);
    assert pad == pad[..|tail|] + [pad[|tail|]] + pad[|tail| + 1..|pad| - 8] + pad[|pad| - 8..];
  }

  /** finish completes the padding of section 5.1.1, in one block or two. */
  lemma PadOfMessage(m: Octets, at: nat, nblk: nat)
    requires at == |m| / 64 * 64 && nblk == (if |m| - at >= 56 then 2 else 1)
    ensures Pad(m) == m[..at] + (m[at..] + [0x80] + Zeros(nblk * 64 - 9 - (|m| - at)) + LengthOctets(|m|))
  {
    hide LengthOctets;
    assert ZeroCount(|m|) == nblk * 64 - 9 - (|m| - at);
    assert m == m[..at] + m[at..];
    var z, l := Zeros(ZeroCount(|m|)), LengthOctets(|m|);
    assert m + [0x80] + z + l == m[..at] + (m[at..] + [0x80] + z + l);
  }

  /** The whole blocks, then the padded tail, are the padded message. */
  lemma TailCompletes(m: Octets, at: nat, pad: Octets, nblk: nat)
    requires at == |m| / 64 * 64 && nblk == (if |m| - at >= 56 then 2 else 1) && 64 * nblk <= |pad|
    requires pad[..nblk * 64] == m[at..] + [0x80] + Zeros(nblk * 64 - 9 - (|m| - at)) + LengthOctets(|m|)
    ensures AfterBlocks(AfterBlocks(IV, m, 0, |m| / 64), pad, 0, nblk) == CompressAll(IV, Pad(m))
  {
    hide CompressAll, LengthOctets, Zeros, Pad;
    PadOfMessage(m, at, nblk);
    var tail := pad[..nblk * 64];
    assert pad[0..0 + 64 * nblk] == tail && m[0..0 + 64 * (|m| / 64)] == m[..at];
    CompressAllConcat(IV, m[..at], tail);
  }

  /** One state word, most significant byte first. */
  method StoreWord(out: array<bv8>, at: nat, w: bv32)
    requires at + 4 <= out.Length
    modifies out
    ensures out[..at + 4] == old(out[..at]) + WordOctets(w)
    ensures forall k :: at + 4 <= k < out.Length ==> out[k] == old(out[k])
  {
    out[at + 0] := ((w >> 24) & 0xff) as bv8;
    out[at + 1] := ((w >> 16) & 0xff) as bv8;
    out[at + 2] := ((w >> 8) & 0xff) as bv8;
    out[at + 3] := (w & 0xff) as bv8;
  }

  method WriteDigest(st: array<bv32>, out: array<bv8>)
    requires st.Length == 8 && out.Length >= 32
    modifies out
    ensures out[..32] == Digest(ToState(st[..]))
    ensures out[32..] == old(out[32..])
  {
    hide WordOctets;
    for i := 0 to 8
      invariant out[..4 * i] == WordsOctets(st[..i])
      invariant forall k :: 32 <= k < out.Length ==> out[k] == old(out[k])
    {
      StoreWord(out, 4 * i, st[i]);
      assert st[..i + 1][..i] == st[..i];
    }
    assert st[..8] == st[..];
    DigestOfWords(st[..]);
  }

  lemma DigestOfWords(st: seq<bv32>)
    requires |st| == 8
    ensures Digest(ToState(st)) == WordsOctets(st)
  {
    hide WordsOctets;
    assert [st[0], st[1], st[2], st[3], st[4], st[5], st[6], st[7]] == st;
  }

  method Initial() returns (st: array<bv32>)
    ensures fresh(st) && st.Length == 8 && ToState(st[..]) == IV
  {
    st := new bv32[8];
    st[0], st[1], st[2], st[3] := 0x6a09e667, 0xbb67ae85, 0x3c6ef372, 0xa54ff53a;
    st[4], st[5], st[6], st[7] := 0x510e527f, 0x9b05688c, 0x1f83d9ab, 0x5be0cd19;
  }
}

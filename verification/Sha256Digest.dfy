/** The digests: what native/sha256ni.c and native/sha256arm.c share word for word on top of their
    block functions. A build has one of the two instruction sets. */
module Sha256Digest {
  import opened Sha256Spec
  import opened Sha256Tail
  import opened Sha256KnownAnswers
  import Ni = Sha256Ni
  import Arm = Sha256Arm

  datatype Isa = X86 | ArmV8

  method Blocks1(isa: Isa, st: array<bv32>, m: Octets, at: nat, blocks: nat)
    requires st.Length == 8 && at + 64 * blocks <= |m|
    modifies st
    ensures ToState(st[..]) == AfterBlocks(old(ToState(st[..])), m, at, blocks)
  {
    hide *;
    match isa
    case X86 => Ni.Blocks1(st, m, at, blocks);
    case ArmV8 => Arm.Blocks1(st, m, at, blocks);
  }

  method Blocks2(isa: Isa, sta: array<bv32>, a: Octets, stb: array<bv32>, b: Octets, blocks: nat)
    requires sta != stb && sta.Length == stb.Length == 8 && 64 * blocks <= |a| && 64 * blocks <= |b|
    modifies sta, stb
    ensures ToState(sta[..]) == AfterBlocks(old(ToState(sta[..])), a, 0, blocks)
    ensures ToState(stb[..]) == AfterBlocks(old(ToState(stb[..])), b, 0, blocks)
  {
    hide *;
    match isa
    case X86 => Ni.Blocks2(sta, a, stb, b, blocks);
    case ArmV8 => Arm.Blocks2(sta, a, stb, b, blocks);
  }

  /** From the state after the whole blocks to the digest. */
  method Finish(isa: Isa, st: array<bv32>, m: Octets, at: nat, out: array<bv8>)
    requires st.Length == 8 && out.Length >= 32 && at == |m| / 64 * 64 && 8 * |m| < 0x1_0000_0000_0000_0000
    requires ToState(st[..]) == AfterBlocks(IV, m, 0, |m| / 64)
    modifies st, out
    ensures out[..32] == Sha256(m) && out[32..] == old(out[32..])
  {
    hide CompressAll, AfterBlocks, LengthOctets, Zeros, Digest, Pad, ToState;
    var pad, nblk := PadTail(m, at, |m|);
    TailCompletes(m, at, pad[..], nblk);
    Blocks1(isa, st, pad[..], 0, nblk);
    WriteDigest(st, out);
  }

  /** dsa_sha256_one. */
  method One(isa: Isa, a: Octets, out: array<bv8>)
    requires out.Length >= 32 && 8 * |a| < 0x1_0000_0000_0000_0000
    modifies out
    ensures out[..32] == Sha256(a) && out[32..] == old(out[32..])
  {
    hide *;
    var st := Initial();
    var blk := |a| / 64;
    Blocks1(isa, st, a, 0, blk);
    Finish(isa, st, a, blk * 64, out);
  }

  /** The blocks of the longer message that had no partner. */
  method Continue(isa: Isa, st: array<bv32>, m: Octets, common: nat, blocks: nat)
    requires st.Length == 8 && common <= blocks && 64 * blocks <= |m|
    requires ToState(st[..]) == AfterBlocks(IV, m, 0, common)
    modifies st
    ensures ToState(st[..]) == AfterBlocks(IV, m, 0, blocks)
  {
    hide CompressAll, AfterBlocks, ToState;
    if blocks > common {
      InTwoGoes(IV, m, common, blocks);
      Blocks1(isa, st, m, 64 * common, blocks - common);
    }
  }

  /** dsa_sha256_pair: the common blocks together, the rest of the longer message alone. */
  method Pair(isa: Isa, a: Octets, outA: array<bv8>, b: Octets, outB: array<bv8>)
    requires outA != outB && outA.Length >= 32 && outB.Length >= 32
    requires 8 * |a| < 0x1_0000_0000_0000_0000 && 8 * |b| < 0x1_0000_0000_0000_0000
    modifies outA, outB
    ensures outA[..32] == Sha256(a) && outB[..32] == Sha256(b)
    ensures outA[32..] == old(outA[32..]) && outB[32..] == old(outB[32..])
  {
    hide *;
    var sa := Initial();
    var sb := Initial();
    var ba, bb := |a| / 64, |b| / 64;
    var common := if ba < bb then ba else bb;
    Blocks2(isa, sa, a, sb, b, common);
    Continue(isa, sa, a, common, ba);
    Continue(isa, sb, b, common, bb);
    Finish(isa, sa, a, ba * 64, outA);
    Finish(isa, sb, b, bb * 64, outB);
  }

  /** dsa_sha_probe: one published digest, and one pair against two singles. It refuses exactly a
      processor without the instructions. */
  method Probe(isa: Isa, available: bool) returns (rc: int)
    ensures rc == if available then 1 else 0
  {
    hide *;
    if !available { return 0; }
    var d, p, q := new bv8[32], new bv8[32], new bv8[32];
    var abc: Octets := [0x61, 0x62, 0x63];
    var want: Octets := [0xba, 0x78, 0x16, 0xbf, 0x8f, 0x01, 0xcf, 0xea, 0x41, 0x41, 0x40, 0xde, 0x5d, 0xae, 0x22,
                         0x23, 0xb0, 0x03, 0x61, 0xa3, 0x96, 0x17, 0x7a, 0x9c, 0xb4, 0x10, 0xff, 0x61, 0xf2, 0x00,
                         0x15, 0xad];
    AbcDigest(abc);
    One(isa, abc, d);
    assert d[..32] == want;
    for i := 0 to 32
    {
      assert d[i] == d[..32][i];
      if d[i] != want[i] { return 0; }
    }
    var zeros: Octets := seq(100, _ => 0);
    Pair(isa, abc, p, zeros, q);
    One(isa, zeros, d);
    for i := 0 to 32
      invariant p[..32] == want && q[..32] == d[..32]
    {
      assert p[i] == p[..32][i] && q[i] == q[..32][i] && d[i] == d[..32][i];
      if p[i] != want[i] || q[i] != d[i] { return 0; }
    }
    rc := 1;
  }
}

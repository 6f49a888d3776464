/** cmd/derostorm/target.go and the share difficulty of engine.go: the target as four limbs, the
    limb cascade, and what they mean. */
module Target {
  import opened MachineTypes
  import opened BigNumbers
  import opened Difficulty

  /** limb[3] is the most significant; all is set when the target does not fit 256 bits. */
  datatype Target = Target(limb: seq<uint64>, all: bool)

  predicate WellFormed(tg: Target) { |tg.limb| == 4 }

  function LimbValue(limb: seq<uint64>): nat
    requires |limb| == 4
  {
    ((limb[3] * WORD + limb[2]) * WORD + limb[1]) * WORD + limb[0]
  }

  function Abs(x: int): nat { if x < 0 then -x else x }

  /** The limbs hold the magnitude of the quotient, or all stands for one that does not fit. */
  ghost predicate IsTargetOf(tg: Target, difficulty: int)
    requires difficulty != 0
  {
    && WellFormed(tg)
    && (tg.all <==> Abs(ONE_LSH_256 / difficulty) >= ONE_LSH_256)
    && (!tg.all ==> LimbValue(tg.limb) == Abs(ONE_LSH_256 / difficulty))
  }

  lemma TargetWellFormed(tg: Target, difficulty: int)
    requires difficulty != 0 && IsTargetOf(tg, difficulty)
    ensures WellFormed(tg)
  {}

  /** NewTarget divides once per job. big.Int's BitLen and Bytes look at the magnitude only. */
  method NewTarget(difficulty: int) returns (r: Checked<Target>)
    ensures r == Panic <==> difficulty == 0
    ensures difficulty != 0 ==> IsTargetOf(r.value, difficulty)
  {
    if difficulty == 0 { return Panic; }
    var q := Abs(ONE_LSH_256 / difficulty);
    if q >= ONE_LSH_256 { return Ok(Target([0, 0, 0, 0], true)); }
    PowersOf256();
    ToBigLength(q, 32);
    var b := ToBig(q);
    var buf := new byte[32](_ => 0);
    var at := 32 - |b|;
    forall k | 0 <= k < |b| { buf[at + k] := b[k]; }
    ghost var s := buf[..];
    assert s == s[..at] + b;
    FromBigZeros(s[..at]);
    FromBigConcat(s[..at], b);
    ToBigRoundTrip(q);
    var limb := LimbsOf(buf[..]);
    r := Ok(Target(limb, false));
  }

  /** Four big-endian words of a 32-byte buffer, least significant first. */
  function LimbsOf(s: seq<byte>): (limb: seq<uint64>)
    requires |s| == 32
    ensures |limb| == 4 && LimbValue(limb) == FromBig(s)
  {
    FourWords(s);
    [FromBig(s[24..32]), FromBig(s[16..24]), FromBig(s[8..16]), FromBig(s[0..8])]
  }

  /** binary.LittleEndian.Uint64 of eight hash bytes. */
  function Word(h: Hash, at: nat): uint64
    requires at + 8 <= 32
  {
    FromBigBound(Reversed(h[at..at + 8]));
    PowersOf256();
    FromLittle(h[at..at + 8])
  }

  /** The hot path: one load and one compare decide in nearly every case. */
  predicate Meets(tg: Target, h: Hash)
    requires WellFormed(tg)
  {
    if tg.all then true
    else if Word(h, 24) != tg.limb[3] then Word(h, 24) < tg.limb[3]
    else if Word(h, 16) != tg.limb[2] then Word(h, 16) < tg.limb[2]
    else if Word(h, 8) != tg.limb[1] then Word(h, 8) < tg.limb[1]
    else Word(h, 0) <= tg.limb[0]
  }

  /** The hash's four little-endian words are its four limbs. */
  lemma HashLimbs(h: Hash)
    ensures HashValue(h) == LimbValue([Word(h, 0), Word(h, 8), Word(h, 16), Word(h, 24)])
  {
    var r := Reversed(h);
    assert r[0..8] == Reversed(h[24..32]) && r[8..16] == Reversed(h[16..24]);
    assert r[16..24] == Reversed(h[8..16]) && r[24..32] == Reversed(h[0..8]);
    FourWords(r);
    PowersOf256();
  }

  /** The most significant differing limb decides. */
  lemma CascadeIsComparison(a: seq<uint64>, b: seq<uint64>)
    requires |a| == |b| == 4
    ensures LimbValue(a) <= LimbValue(b) <==>
              if a[3] != b[3] then a[3] < b[3]
              else if a[2] != b[2] then a[2] < b[2]
              else if a[1] != b[1] then a[1] < b[1]
              else a[0] <= b[0]
  {
    TopLimb(a[3], a[2], b[3], b[2]);
    TopLimb(a[3] * WORD + a[2], a[1], b[3] * WORD + b[2], b[1]);
    TopLimb((a[3] * WORD + a[2]) * WORD + a[1], a[0], (b[3] * WORD + b[2]) * WORD + b[1], b[0]);
  }

  lemma TopLimb(x: nat, x0: uint64, y: nat, y0: uint64)
    ensures x * WORD + x0 < y * WORD + y0 <==> x < y || (x == y && x0 < y0)
    ensures x * WORD + x0 == y * WORD + y0 <==> x == y && x0 == y0
  {}

  lemma MeetsIsComparison(tg: Target, h: Hash)
    requires WellFormed(tg)
    ensures Meets(tg, h) <==> tg.all || HashValue(h) <= LimbValue(tg.limb)
  {
    HashLimbs(h);
    CascadeIsComparison([Word(h, 0), Word(h, 8), Word(h, 16), Word(h, 24)], tg.limb);
  }

  lemma QuotientSign(d: int)
    requires d != 0
    ensures d > 0 ==> ONE_LSH_256 / d >= 0
    ensures -ONE_LSH_256 <= d < 0 ==> ONE_LSH_256 / d < 0
    ensures d < -ONE_LSH_256 ==> ONE_LSH_256 / d == 0
  {
    var q, r := ONE_LSH_256 / d, ONE_LSH_256 % d;
    assert ONE_LSH_256 == q * d + r && 0 <= r < Abs(d);
    assert d > 0 && q < 0 ==> q * d <= -d;
    assert d < 0 && q > 0 ==> q * d <= d;
    assert d < 0 && q < 0 ==> q * d >= -d;
  }

  /** For every positive difficulty, and every hash, the limb check is the reference check. */
  lemma MeetsIsCheckPowHashBig(tg: Target, d: int, h: Hash)
    requires d > 0 && IsTargetOf(tg, d)
    ensures Meets(tg, h) <==> HashValue(h) <= ONE_LSH_256 / d
  {
    QuotientSign(d);
    MeetsIsComparison(tg, h);
  }

  /** Beyond the positive range: the two checks part exactly for difficulties -2^256..-1, where the
      reference's target is negative and the limbs hold its magnitude. */
  lemma AgreementIsExact(tg: Target, d: int)
    requires d != 0 && IsTargetOf(tg, d)
    ensures (forall h: Hash :: Meets(tg, h) <==> HashValue(h) <= ONE_LSH_256 / d) <==>
            d > 0 || d < -ONE_LSH_256
  {
    QuotientSign(d);
    if d > 0 || d < -ONE_LSH_256 {
      forall h: Hash ensures Meets(tg, h) <==> HashValue(h) <= ONE_LSH_256 / d {
        MeetsIsComparison(tg, h);
      }
    } else {
      var zero: Hash := seq(32, _ => 0);
      FromBigZeros(Reversed(zero));
      MeetsIsComparison(tg, zero);
      assert Meets(tg, zero) && !(HashValue(zero) <= ONE_LSH_256 / d);
    }
  }

  // Share difficulty.

  /** shareDifficulty of engine.go: the difficulty a hash actually met, clamped to 64 bits. */
  method ShareDifficulty(h: Hash) returns (d: uint64)
    ensures d == ShareOf(HashValue(h))
    ensures HashValue(h) == 0 ==> d == 0
    ensures HashValue(h) > 0 && ONE_LSH_256 / HashValue(h) < 0x1_0000_0000_0000_0000 ==> d == ONE_LSH_256 / HashValue(h)
    ensures HashValue(h) > 0 && ONE_LSH_256 / HashValue(h) >= 0x1_0000_0000_0000_0000 ==> d == 0xffff_ffff_ffff_ffff
  {
    var be := new byte[32](_ => 0);
    for i := 0 to 32
      invariant forall k :: 0 <= k < i ==> be[31 - k] == h[k]
    {
      be[31 - i] := h[i];
    }
    assert be[..] == Reversed(h);
    var v := FromBig(be[..]);
    if v == 0 { return 0; }
    QuotientSign(v);
    var q := ONE_LSH_256 / v;
    if q > 0xffff_ffff_ffff_ffff { return 0xffff_ffff_ffff_ffff; }
    d := q;
  }

  function ShareOf(v: nat): uint64 {
    if v == 0 then 0
    else
      QuotientSign(v);
      if ONE_LSH_256 / v > 0xffff_ffff_ffff_ffff then 0xffff_ffff_ffff_ffff else ONE_LSH_256 / v
  }

  /** v <= N / d exactly when d <= N / v: both say v * d <= N. */
  lemma DivisionAdjoint(n: nat, v: nat, d: nat)
    requires v > 0 && d > 0
    ensures v <= n / d <==> v * d <= n
  {
    var q := n / d;
    assert n == q * d + n % d;
    if v <= q { assert v * d <= q * d; } else { assert v * d >= (q + 1) * d; }
  }

  /** For every nonzero hash and every 64-bit difficulty, meeting the target is having at least
      that share difficulty. */
  lemma ShareIsAdjoint(tg: Target, d: uint64, h: Hash)
    requires d > 0 && IsTargetOf(tg, d) && HashValue(h) > 0
    ensures Meets(tg, h) <==> d <= ShareOf(HashValue(h))
  {
    var v := HashValue(h);
    MeetsIsCheckPowHashBig(tg, d, h);
    DivisionAdjoint(ONE_LSH_256, v, d);
    DivisionAdjoint(ONE_LSH_256, d, v);
    assert v * d == d * v;
  }

  /** The all-zero hash is the only exception: it meets every target and reports difficulty 0. */
  lemma ShareIsAdjointExactly(h: Hash)
    ensures (forall tg: Target, d: uint64 :: d > 0 && IsTargetOf(tg, d) ==>
               (Meets(tg, h) <==> d <= ShareOf(HashValue(h))))
            <==> HashValue(h) > 0
  {
    if HashValue(h) > 0 {
      forall tg: Target, d: uint64 | d > 0 && IsTargetOf(tg, d)
        ensures Meets(tg, h) <==> d <= ShareOf(HashValue(h))
      {
        ShareIsAdjoint(tg, d, h);
      }
    } else {
      var tg := Target([0, 0, 0, 0], true);
      assert IsTargetOf(tg, 1);
      assert Meets(tg, h) && !(1 <= ShareOf(HashValue(h)));
    }
  }
}

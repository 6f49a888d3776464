/** The reference difficulty check of cmd/derostorm/difficulty.go, over big integers. */
module Difficulty {
  import opened MachineTypes
  import opened BigNumbers

  const ONE_LSH_256 := 0x1_0000000000000000_0000000000000000_0000000000000000_0000000000000000

  /** A Go call that may panic. */
  datatype Checked<T> = Panic | Ok(value: T)

  type Hash = h: seq<byte> | |h| == 32 witness seq(32, _ => 0)

  /** The 256-bit little-endian number a hash stands for. */
  function HashValue(h: Hash): (v: nat)
    ensures v < ONE_LSH_256
  {
    FromBigBound(Reversed(h));
    PowersOf256();
    FromLittle(h)
  }

  /** Byte i of a hash is the digit of weight 256^i of its value, which has 32 digits: no other number
      can stand for it. */
  lemma HashBytes(h: Hash, i: nat)
    requires i < 32
    ensures HashValue(h) / Pow256(i) % 0x100 == h[i]
    ensures Pow256(0) == 1 && Pow256(i + 1) == 0x100 * Pow256(i)
    ensures HashValue(h) < Pow256(32) == ONE_LSH_256
  {
    DigitOfBig(Reversed(h), i);
    PowersOf256();
  }

  /** HashToBig: reverse the (copied) array in place, then read it big-endian. */
  method HashToBig(h: Hash) returns (v: nat)
    ensures v == HashValue(h)
  {
    var buf := new byte[32](i requires 0 <= i < 32 => h[i]);
    for i := 0 to 16
      invariant forall k :: 0 <= k < i ==> buf[k] == h[31 - k] && buf[31 - k] == h[k]
      invariant forall k :: i <= k < 32 - i ==> buf[k] == h[k]
    {
      buf[i], buf[31 - i] := buf[31 - i], buf[i];
    }
    assert buf[..] == Reversed(h);
    v := FromBig(buf[..]);
  }

  /** ConvertIntegerDifficultyToBig: big.Int.Div is Euclidean, and so is this division. */
  function ConvertIntegerDifficultyToBig(difficulty: int): Checked<int> {
    if difficulty == 0 then Panic else Ok(ONE_LSH_256 / difficulty)
  }

  method CheckPowHashBig(h: Hash, difficulty: int) returns (r: Checked<bool>)
    ensures r == Panic <==> difficulty == 0
    ensures difficulty != 0 ==> r == Ok(HashValue(h) <= ONE_LSH_256 / difficulty)
  {
    var v := HashToBig(h);
    var target := ConvertIntegerDifficultyToBig(difficulty);
    r := if target == Panic then Panic else Ok(v <= target.value);
  }
}

/** The histogram, prefix sum and slot counters that column_step_keys and sort_desc share. */
module CountingSort {
  import opened MachineTypes
  import opened StableOrder
  import opened Arrays

  ghost predicate Digits(ks: seq<int>, bins: nat) {
    |ks| < 0x1_0000_0000 && forall x :: 0 <= x < |ks| ==> 0 <= ks[x] < bins
  }

  /** After a histogram of the first x keys. */
  ghost predicate Counted(cnt: seq<uint32>, ks: seq<int>, x: nat)
    requires x <= |ks|
  {
    forall b :: 0 <= b < |cnt| ==> cnt[b] == Same(ks[..x], b)
  }

  /** After the prefix sum and x placements: where the next element with key b goes. */
  ghost predicate Slots(cnt: seq<uint32>, ks: seq<int>, x: nat)
    requires x <= |ks|
  {
    forall b :: 0 <= b < |cnt| ==> cnt[b] == Below(ks, b) + Same(ks[..x], b)
  }

  lemma {:induction false} NothingBelowZero(ks: seq<int>, bins: nat)
    requires Digits(ks, bins)
    ensures Below(ks, 0) == 0
    decreases |ks|
  {
    if ks != [] { NothingBelowZero(ks[..|ks| - 1], bins); }
  }

  lemma {:induction false} BelowStep(ks: seq<int>, v: int)
    ensures Below(ks, v + 1) == Below(ks, v) + Same(ks, v)
    decreases |ks|
  {
    if ks != [] { BelowStep(ks[..|ks| - 1], v); }
  }

  lemma SameAll(ks: seq<int>, v: int)
    ensures Same(ks[..|ks|], v) == Same(ks, v)
  {
    assert ks[..|ks|] == ks;
  }

  lemma NothingCounted(ks: seq<int>, cnt: seq<uint32>)
    requires forall b :: 0 <= b < |cnt| ==> cnt[b] == 0
    ensures Counted(cnt, ks, 0)
  {
    assert forall b :: Same(ks[..0], b) == 0;
  }

  /** Count key ks[x]. */
  method Tally(cnt: array<uint32>, ghost ks: seq<int>, ghost x: nat, digit: nat)
    requires x < |ks| && Digits(ks, cnt.Length) && digit == ks[x]
    requires Counted(cnt[..], ks, x)
    modifies cnt
    ensures Counted(cnt[..], ks, x + 1)
  {
    BelowBounds(ks[..x], digit);
    ghost var c := cnt[..];
    Set(cnt, digit, cnt[digit] + 1);
    forall b | 0 <= b < cnt.Length ensures cnt[..][b] == Same(ks[..x + 1], b) {
      SameNext(ks, x, b);
      assert c[b] == Same(ks[..x], b);
    }
  }

  /** Turn counts into first slots. */
  method PrefixSums(cnt: array<uint32>, ghost ks: seq<int>)
    requires Digits(ks, cnt.Length)
    requires Counted(cnt[..], ks, |ks|)
    modifies cnt
    ensures Slots(cnt[..], ks, 0)
  {
    NothingBelowZero(ks, cnt.Length);
    ghost var c0 := cnt[..];
    var sum: uint32 := 0;
    for b := 0 to cnt.Length
      invariant sum == Below(ks, b)
      invariant cnt[b..] == c0[b..]
      invariant forall i :: 0 <= i < b ==> cnt[i] == Below(ks, i)
    {
      assert cnt[b] == cnt[b..][0] == c0[b];
      SameAll(ks, b);
      BelowStep(ks, b);
      BelowBounds(ks, b + 1);
      var c := cnt[b];
      cnt[b] := sum;
      sum := sum + c;
    }
  }

  /** Claim the slot of element x: it is the element's rank. */
  method Claim(cnt: array<uint32>, ghost ks: seq<int>, ghost x: nat, digit: nat) returns (slot: nat)
    requires x < |ks| && Digits(ks, cnt.Length) && digit == ks[x]
    requires Slots(cnt[..], ks, x)
    modifies cnt
    ensures slot == Rank(ks, x) < |ks|
    ensures Slots(cnt[..], ks, x + 1)
  {
    RankInRange(ks, x);
    ghost var c := cnt[..];
    assert c[digit] == Below(ks, digit) + Same(ks[..x], digit);
    slot := cnt[digit];
    Set(cnt, digit, cnt[digit] + 1);
    forall b | 0 <= b < cnt.Length ensures cnt[..][b] == Below(ks, b) + Same(ks[..x + 1], b) {
      SameNext(ks, x, b);
      assert c[b] == Below(ks, b) + Same(ks[..x], b);
    }
  }
}

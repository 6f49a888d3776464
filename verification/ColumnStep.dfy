/** column_step_keys of native/descriptor.c: re-sort a run's blocks, stably, by the byte just
    prepended, moving the order and the keys together. Four routes, one result. */
module ColumnStep {
  import opened MachineTypes
  import opened Arrays
  import opened CountingSort
  import opened Descriptors
  import opened StableOrder

  const RANK_MAX := 16
  const COUNT_MIN := 40

  /** The leading byte of each slid key: what the step sorts by. */
  function Tops(keys: seq<uint32>): (r: seq<int>)
    ensures |r| == |keys|
    ensures forall x :: 0 <= x < |r| ==> r[x] == keys[x] / 0x1_0000
  {
    seq(|keys|, x requires 0 <= x < |keys| => keys[x] / 0x1_0000)
  }

  ghost predicate Keys24(keys: seq<uint32>) {
    forall x :: 0 <= x < |keys| ==> keys[x] < 0x100_0000
  }

  /** One permutation sorted both arrays stably by the leading key byte. */
  ghost predicate Moved(o: seq<uint32>, k: seq<uint32>, o': seq<uint32>, k': seq<uint32>) {
    exists q :: IsDestination(Tops(k), q) && Placed(q, o, o') && Placed(q, k, k')
  }

  /** The top byte with the element's index underneath: no two are equal, and comparing two of
      them compares (byte, index). */
  function Packed(key: uint32, x: nat): nat
    requires key < 0x100_0000 && x < 0x200
  {
    key / 0x1_0000 * 0x200 + x
  }

  function Bit(b: bool): nat { if b then 1 else 0 }

  /** Below and Same of a prefix of at most four keys, unrolled. */
  lemma BelowFour(ks: seq<int>, v: int)
    requires |ks| == 4
    ensures Below(ks, v) == Bit(ks[0] < v) + Bit(ks[1] < v) + Bit(ks[2] < v) + Bit(ks[3] < v)
  {
    assert ks[..4] == ks;
    BelowNext(ks, 0, v);
    BelowNext(ks, 1, v);
    BelowNext(ks, 2, v);
    BelowNext(ks, 3, v);
  }

  lemma SameFour(ks: seq<int>, v: int)
    requires |ks| == 4
    ensures Same(ks[..0], v) == 0
    ensures Same(ks[..1], v) == Bit(ks[0] == v)
    ensures Same(ks[..2], v) == Bit(ks[0] == v) + Bit(ks[1] == v)
    ensures Same(ks[..3], v) == Bit(ks[0] == v) + Bit(ks[1] == v) + Bit(ks[2] == v)
  {
    SameNext(ks, 0, v);
    SameNext(ks, 1, v);
    SameNext(ks, 2, v);
  }

  /** The four unrolled ranks are the ranks. */
  lemma RankOfFour(ks: seq<int>, x: nat)
    requires |ks| == 4 && x < 4
    ensures Rank(ks, x) == Bit(Before(ks, 0, x)) + Bit(Before(ks, 1, x)) + Bit(Before(ks, 2, x)) + Bit(Before(ks, 3, x))
  {
    BelowFour(ks, ks[x]);
    SameFour(ks, ks[x]);
  }

  lemma PackedIsBefore(keys: seq<uint32>, x: nat, y: nat)
    requires Keys24(keys) && |keys| <= 0x200 && x < |keys| && y < |keys|
    ensures Packed(keys[x], x) < Packed(keys[y], y) <==> Before(Tops(keys), x, y)
  {}

  method RanksOfFour(keys: array<uint32>) returns (r0: nat, r1: nat, r2: nat, r3: nat)
    requires keys.Length >= 4 && Keys24(keys[..4])
    ensures Ranks(Tops(keys[..4])) == [r0, r1, r2, r3]
  {
    var v0, v1 := Packed(keys[0], 0), Packed(keys[1], 1);
    var v2, v3 := Packed(keys[2], 2), Packed(keys[3], 3);
    r0 := Bit(v1 < v0) + Bit(v2 < v0) + Bit(v3 < v0);
    r1 := Bit(v0 < v1) + Bit(v2 < v1) + Bit(v3 < v1);
    r2 := Bit(v0 < v2) + Bit(v1 < v2) + Bit(v3 < v2);
    r3 := Bit(v0 < v3) + Bit(v1 < v3) + Bit(v2 < v3);
    ghost var k := keys[..4];
    forall x, y | 0 <= x < 4 && 0 <= y < 4
      ensures Packed(k[x], x) < Packed(k[y], y) <==> Before(Tops(k), x, y)
    {
      PackedIsBefore(k, x, y);
    }
    hide Rank, Below, Same, Tops, Packed, Before;
    RankOfFour(Tops(k), 0);
    RankOfFour(Tops(k), 1);
    RankOfFour(Tops(k), 2);
    RankOfFour(Tops(k), 3);
  }

  method PlaceFour(src: array<uint32>, r0: nat, r1: nat, r2: nat, r3: nat) returns (k: array<uint32>)
    requires src.Length >= 4
    requires InRange([r0, r1, r2, r3]) && Distinct([r0, r1, r2, r3])
    ensures fresh(k) && k.Length == 4
    ensures Placed([r0, r1, r2, r3], src[..4], k[..4])
  {
    ghost var q := [r0, r1, r2, r3];
    assert q[0] != q[1] && q[0] != q[2] && q[0] != q[3] && q[1] != q[2] && q[1] != q[3] && q[2] != q[3];
    assert q[0] < 4 && q[1] < 4 && q[2] < 4 && q[3] < 4;
    k := new uint32[4];
    k[r0] := src[0];
    k[r1] := src[1];
    k[r2] := src[2];
    k[r3] := src[3];
  }

  method RankFour(order: array<uint32>, keys: array<uint32>)
    requires order != keys && order.Length >= 4 && keys.Length >= 4
    requires Keys24(keys[..4])
    modifies order, keys
    ensures Moved(old(order[..4]), old(keys[..4]), order[..4], keys[..4])
  {
    hide *;
    var r0, r1, r2, r3 := RanksOfFour(keys);
    RanksPermute(Tops(keys[..4]));
    var ko := PlaceFour(order, r0, r1, r2, r3);
    var kk := PlaceFour(keys, r0, r1, r2, r3);
    MovedByRanks(order[..4], keys[..4], ko[..4], kk[..4]);
    CopyBack(order, ko[..4]);
    CopyBack(keys, kk[..4]);
  }

  lemma MovedByRanks(o: seq<uint32>, k: seq<uint32>, o': seq<uint32>, k': seq<uint32>)
    requires Placed(Ranks(Tops(k)), o, o') && Placed(Ranks(Tops(k)), k, k')
    ensures Moved(o, k, o', k')
  {
    RanksAreDestinations(Tops(k));
  }

  /** Counting the smaller packed values counts the elements that must come first. */
  method CountSmaller(keys: array<uint32>, blocks: nat, x: nat) returns (r: nat)
    requires x < blocks <= RANK_MAX && blocks <= keys.Length
    requires Keys24(keys[..blocks])
    ensures r == Rank(Tops(keys[..blocks]), x)
  {
    ghost var ks := Tops(keys[..blocks]);
    r := 0;
    for y := 0 to blocks
      invariant r == Below(ks[..y], ks[x]) + Same(ks[..if y < x then y else x], ks[x])
    {
      BelowNext(ks, y, ks[x]);
      SameNext(ks, y, ks[x]);
      r := r + Bit(Packed(keys[y], y) < Packed(keys[x], x));
    }
    assert ks[..blocks] == ks;
  }

  /** Each element goes to its rank in a pair of local arrays. */
  method PlaceByRank(order: array<uint32>, keys: array<uint32>, blocks: nat)
    returns (ko: array<uint32>, kk: array<uint32>)
    requires blocks <= RANK_MAX && blocks <= order.Length && blocks <= keys.Length
    requires Keys24(keys[..blocks])
    ensures fresh(ko) && fresh(kk) && ko.Length == kk.Length == RANK_MAX
    ensures Placed(Ranks(Tops(keys[..blocks])), order[..blocks], ko[..blocks])
    ensures Placed(Ranks(Tops(keys[..blocks])), keys[..blocks], kk[..blocks])
  {
    hide Ranks, Rank, Below, Same, Tops;
    ghost var q := Ranks(Tops(keys[..blocks]));
    RanksPermute(Tops(keys[..blocks]));
    ko, kk := new uint32[RANK_MAX], new uint32[RANK_MAX];
    for x := 0 to blocks
      invariant forall y :: 0 <= y < x ==> ko[q[y]] == order[y]
      invariant forall y :: 0 <= y < x ==> kk[q[y]] == keys[y]
    {
      var r := CountSmaller(keys, blocks, x);
      ko[r], kk[r] := order[x], keys[x];
    }
  }

  method RankSort(order: array<uint32>, keys: array<uint32>, blocks: nat)
    requires order != keys && blocks <= RANK_MAX && blocks <= order.Length && blocks <= keys.Length
    requires Keys24(keys[..blocks])
    modifies order, keys
    ensures Moved(old(order[..blocks]), old(keys[..blocks]), order[..blocks], keys[..blocks])
  {
    hide *;
    var ko, kk := PlaceByRank(order, keys, blocks);
    MovedByRanks(order[..blocks], keys[..blocks], ko[..blocks], kk[..blocks]);
    CopyBack(order, ko[..blocks]);
    CopyBack(keys, kk[..blocks]);
  }

  ghost predicate TopsSorted(k: seq<uint32>) {
    forall i, j :: 0 <= i < j < |k| ==> k[i] / 0x1_0000 <= k[j] / 0x1_0000
  }

  lemma MovedIsSorted(o: seq<uint32>, k: seq<uint32>, o': seq<uint32>, k': seq<uint32>)
    requires Moved(o, k, o', k')
    ensures TopsSorted(k')
  {
    var q :| IsDestination(Tops(k), q) && Placed(q, o, o') && Placed(q, k, k');
    forall i, j | 0 <= i < j < |k'| ensures k'[i] / 0x1_0000 <= k'[j] / 0x1_0000 {
      var x, y := SourcesInOrder(Tops(k), q, i, j);
    }
  }

  /** One more element, inserted behind the last key no larger, keeps the prefix stably sorted. */
  lemma InsertMoves(o: seq<uint32>, k: seq<uint32>, o': seq<uint32>, k': seq<uint32>, p: nat)
    requires |o| == |k| > 0 && |o'| == |k'| == |k| - 1
    requires Moved(o[..|o'|], k[..|k'|], o', k')
    requires p <= |k'|
    requires forall i :: 0 <= i < |k'| ==> (i < p <==> k'[i] / 0x1_0000 <= k[|k'|] / 0x1_0000)
    ensures Moved(o, k, Inserted(o', p, o[|o'|]), Inserted(k', p, k[|k'|]))
  {
    var n := |k'|;
    var q :| IsDestination(Tops(k[..n]), q) && Placed(q, o[..n], o') && Placed(q, k[..n], k');
    var ks := Tops(k);
    assert ks[..n] == Tops(k[..n]);
    forall x | 0 <= x < n ensures q[x] < p <==> ks[x] <= ks[n] {
      assert k'[q[x]] == k[..n][x];
    }
    var q' := InsertDestination(ks, q, p);
    assert Placed(q', o, Inserted(o', p, o[n])) by { PlacedInsert(q, o, o', p, q'); }
    assert Placed(q', k, Inserted(k', p, k[n])) by { PlacedInsert(q, k, k', p, q'); }
  }

  lemma PlacedInsert(q: seq<nat>, s: seq<uint32>, s': seq<uint32>, p: nat, q': seq<nat>)
    requires |s| > 0 && |s'| == |s| - 1 && p <= |s'|
    requires Placed(q, s[..|s'|], s')
    requires |q'| == |q| + 1 && InRange(q') && q'[|q|] == p
    requires forall x :: 0 <= x < |q| ==> q'[x] == if q[x] < p then q[x] else q[x] + 1
    ensures Placed(q', s, Inserted(s', p, s[|s'|]))
  {
    forall x | 0 <= x < |q'| ensures Inserted(s', p, s[|s'|])[q'[x]] == s[x] {
      if x < |q| { assert s'[q[x]] == s[..|s'|][x]; }
    }
  }

  /** The inner loop: shift the larger keys up by one and drop element x into the gap. */
  method InsertOne(order: array<uint32>, keys: array<uint32>, x: nat) returns (ghost p: nat)
    requires order != keys && x < order.Length && x < keys.Length
    requires TopsSorted(keys[..x])
    modifies order, keys
    ensures p <= x
    ensures order[..] == Rotated(old(order[..]), p, x)
    ensures keys[..] == Rotated(old(keys[..]), p, x)
    ensures forall i :: 0 <= i < x ==> (i < p <==> old(keys[..])[i] / 0x1_0000 <= old(keys[..])[x] / 0x1_0000)
  {
    hide *;
    ghost var o, k := order[..], keys[..];
    var vo, vk := order[x], keys[x];
    var kb := vk / 0x1_0000;
    var y := x;
    ShiftStart(o, x);
    ShiftStart(k, x);
    while y > 0 && keys[y - 1] / 0x1_0000 > kb
      invariant y <= x
      invariant Shifted(o, order[..], y, x) && Shifted(k, keys[..], y, x)
      invariant forall i :: y <= i < x ==> k[i] / 0x1_0000 > kb
    {
      ShiftStep(o, order[..], y, x);
      ShiftStep(k, keys[..], y, x);
      Set(order, y, order[y - 1]);
      Set(keys, y, keys[y - 1]);
      y := y - 1;
    }
    ShiftDone(o, order[..], y, x);
    ShiftDone(k, keys[..], y, x);
    GapSplits(k, x, y);
    Set(order, y, vo);
    Set(keys, y, vk);
    p := y;
  }

  /** A sorted prefix splits at the last key no larger than the one being inserted. */
  lemma GapSplits(k: seq<uint32>, x: nat, y: nat)
    requires y <= x < |k| && TopsSorted(k[..x])
    requires y > 0 ==> k[y - 1] / 0x1_0000 <= k[x] / 0x1_0000
    requires forall i :: y <= i < x ==> k[i] / 0x1_0000 > k[x] / 0x1_0000
    ensures forall i :: 0 <= i < x ==> (i < y <==> k[i] / 0x1_0000 <= k[x] / 0x1_0000)
  {
    assert forall i :: 0 <= i < x ==> k[..x][i] == k[i];
  }

  method InsertionSort(order: array<uint32>, keys: array<uint32>, blocks: nat)
    requires order != keys && 0 < blocks <= order.Length && blocks <= keys.Length
    modifies order, keys
    ensures Moved(old(order[..blocks]), old(keys[..blocks]), order[..blocks], keys[..blocks])
  {
    ghost var o, k := order[..], keys[..];
    MovedOne(o[..1], k[..1]);
    for x := 1 to blocks
      invariant order[x..] == o[x..] && keys[x..] == k[x..]
      invariant Moved(o[..x], k[..x], order[..x], keys[..x])
    {
      ghost var o', k' := order[..], keys[..];
      MovedIsSorted(o[..x], k[..x], o'[..x], k'[..x]);
      ghost var p := InsertOne(order, keys, x);
      InsertionStep(o, k, o', k', x, p);
    }
  }

  /** InsertMoves inside arrays whose later elements have not been reached yet. */
  lemma InsertionStep(o: seq<uint32>, k: seq<uint32>, o': seq<uint32>, k': seq<uint32>, x: nat, p: nat)
    requires |o| == |o'| > x && |k| == |k'| > x && p <= x
    requires o'[x..] == o[x..] && k'[x..] == k[x..]
    requires Moved(o[..x], k[..x], o'[..x], k'[..x])
    requires forall i :: 0 <= i < x ==> (i < p <==> k'[i] / 0x1_0000 <= k'[x] / 0x1_0000)
    ensures Moved(o[..x + 1], k[..x + 1], Rotated(o', p, x)[..x + 1], Rotated(k', p, x)[..x + 1])
    ensures Rotated(o', p, x)[x + 1..] == o[x + 1..] && Rotated(k', p, x)[x + 1..] == k[x + 1..]
  {
    assert o'[x] == o'[x..][0] == o[x] && k'[x] == k'[x..][0] == k[x];
    assert o'[x + 1..] == o'[x..][1..] && k'[x + 1..] == k'[x..][1..];
    assert o[..x + 1][..x] == o[..x] && k[..x + 1][..x] == k[..x];
    InsertMoves(o[..x + 1], k[..x + 1], o'[..x], k'[..x], p);
  }

  lemma MovedOne(o: seq<uint32>, k: seq<uint32>)
    requires |o| == |k| == 1
    ensures Moved(o, k, o, k)
  {
    assert IsDestination(Tops(k), [0]) && Placed([0], o, o) && Placed([0], k, k);
  }

  /** Histogram the leading bytes. */
  method CountTops(keys: array<uint32>, blocks: nat) returns (cnt: array<uint32>)
    requires blocks <= keys.Length && blocks <= RUN_MAX && Keys24(keys[..blocks])
    ensures fresh(cnt) && cnt.Length == 256 && Slots(cnt[..], Tops(keys[..blocks]), 0)
  {
    hide Below, Same, Tops, Slots;
    ghost var k := keys[..blocks];
    ghost var ks := Tops(k);
    assert Digits(ks, 256);
    cnt := new uint32[256](_ => 0);
    NothingCounted(ks, cnt[..]);
    for x := 0 to blocks
      invariant Counted(cnt[..], ks, x)
    {
      hide Counted;
      assert keys[x] == k[x];
      Tally(cnt, ks, x, keys[x] / 0x1_0000);
    }
    PrefixSums(cnt, ks);
  }

  method CountingStep(order: array<uint32>, keys: array<uint32>, tmp: array<uint32>, blocks: nat)
    requires order != keys && order != tmp && keys != tmp
    requires blocks <= RUN_MAX && blocks <= order.Length && blocks <= keys.Length && blocks <= tmp.Length
    requires Keys24(keys[..blocks])
    modifies order, keys, tmp
    ensures Moved(old(order[..blocks]), old(keys[..blocks]), order[..blocks], keys[..blocks])
  {
    hide Moved, Tops, Slots, Below, Same, Rank, Ranks;
    ghost var o, k := order[..blocks], keys[..blocks];
    ghost var ks := Tops(k);
    RanksPermute(ks);
    ghost var q := Ranks(ks);
    var cnt := CountTops(keys, blocks);
    var ktmp := new uint32[RUN_MAX];
    for x := 0 to blocks
      invariant order[..blocks] == o && keys[..blocks] == k
      invariant Slots(cnt[..], ks, x)
      invariant forall y :: 0 <= y < x ==> tmp[q[y]] == o[y]
      invariant forall y :: 0 <= y < x ==> ktmp[q[y]] == k[y]
    {
      assert keys[x] == k[x] && order[x] == o[x];
      var slot := Claim(cnt, ks, x, keys[x] / 0x1_0000);
      tmp[slot] := order[x];
      ktmp[slot] := keys[x];
    }
    MovedByRanks(o, k, tmp[..blocks], ktmp[..blocks]);
    CopyBack(order, tmp[..blocks]);
    CopyBack(keys, ktmp[..blocks]);
  }

  /** column_step_keys: the route depends only on the number of blocks; the result does not. */
  method ColumnStepKeys(order: array<uint32>, keys: array<uint32>, tmp: array<uint32>, blocks: nat)
    requires order != keys && order != tmp && keys != tmp
    requires 0 < blocks <= RUN_MAX && blocks <= order.Length && blocks <= keys.Length && blocks <= tmp.Length
    requires Keys24(keys[..blocks])
    modifies order, keys, tmp
    ensures Moved(old(order[..blocks]), old(keys[..blocks]), order[..blocks], keys[..blocks])
  {
    if blocks == 4 {
      RankFour(order, keys);
    } else if blocks <= RANK_MAX {
      RankSort(order, keys, blocks);
    } else if blocks < COUNT_MIN {
      InsertionSort(order, keys, blocks);
    } else {
      CountingStep(order, keys, tmp, blocks);
    }
  }

  /** Whatever the route, order and keys end up the same. */
  lemma RoutesAgree(o: seq<uint32>, k: seq<uint32>, o1: seq<uint32>, k1: seq<uint32>, o2: seq<uint32>, k2: seq<uint32>)
    requires Moved(o, k, o1, k1) && Moved(o, k, o2, k2)
    ensures o1 == o2 && k1 == k2
  {
    StableSortUnique(Tops(k), o, o1, o2);
    StableSortUnique(Tops(k), k, k1, k2);
  }
}

/** Laying the lists of one key group end to end, with their boundaries and tie-break keys, and
    sorting them: the general collision route. */
module Gathering {
  import opened MachineTypes
  import opened SuffixOrder
  import opened Keys
  import opened Descriptors
  import opened NaiveCoverage
  import opened Arrays
  import opened Merging
  import opened TwoLists
  import opened ManyLists
  import opened MergeTree
  import opened ScratchSpace

  /** Lists i..k of a key group, laid out end to end; bs holds their starts and the end. */
  ghost predicate GatherState(t: Text, gs: seq<Group>, i: nat, k: nat, key: nat,
                              a: seq<uint32>, ka: seq<uint64>, bs: seq<uint32>) {
    && i <= k <= |gs| && |bs| == k - i + 1 && |a| == |ka|
    && OneKey(t, a, key)
    && (forall n :: 0 <= n < |a| ==> ka[n] == EKey(t, a[n]))
    && multiset(a) == Flatten(gs[i..k])
    && bs[0] == 0 && bs[k - i] == |a|
    && (forall l :: 0 <= l < k - i ==> SortedList(t, a, bs[l], bs[l + 1]))
  }

  lemma GatherStart(t: Text, gs: seq<Group>, i: nat, key: nat)
    requires i <= |gs|
    ensures GatherState(t, gs, i, i, key, [], [], [0])
  {
    assert gs[i..i] == [];
  }

  /** One more list behind the others. */
  lemma GatherNext(t: Text, gs: seq<Group>, i: nat, k: nat, key: nat, a: seq<uint32>, ka: seq<uint64>, bs: seq<uint32>,
                   list: seq<uint32>, lk: seq<uint64>)
    requires k < |gs| && GatherState(t, gs, i, k, key, a, ka, bs)
    requires GroupOk(t, gs[k]) && gs[k].key == key && list == Positions(gs[k]) && |lk| == |list|
    requires forall n :: 0 <= n < |lk| ==> lk[n] == EKey(t, list[n])
    requires |a| + |list| < 0x1_0000_0000
    ensures GatherState(t, gs, i, k + 1, key, a + list, ka + lk, bs + [|a| + |list|])
  {
    hide Key, EKey, Less, Flatten;
    var a', bs' := a + list, bs + [|a| + |list|];
    assert gs[i..k + 1] == gs[i..k] + [gs[k]];
    FlattenSnoc(gs[i..k], gs[k]);
    forall n | 0 <= n < |list| ensures list[n] < |t| && Key(t, list[n]) == key {
      assert list[n] == PosOf(gs[k].blocks[n], gs[k].rel);
    }
    forall l | 0 <= l < k + 1 - i ensures SortedList(t, a', bs'[l], bs'[l + 1]) {
      if l < k - i {
        assert SortedList(t, a, bs[l], bs[l + 1]);
        assert a'[bs[l]..bs[l + 1]] == a[bs[l]..bs[l + 1]];
      } else {
        assert a'[|a|..|a'|] == list;
      }
    }
  }

  /** The finished layout is what the merge tree works on. */
  lemma GatherEnd(t: Text, gs: seq<Group>, i: nat, j: nat, key: nat, total: nat,
                  a: seq<uint32>, ka: seq<uint64>, ba: seq<uint32>)
    requires i < j && total <= |a| && total <= |ka| && j - i < |ba|
    requires GatherState(t, gs, i, j, key, a[..total], ka[..total], ba[..j - i + 1])
    ensures Lists(t, a, ka, ba, j - i, total, key)
    ensures multiset(a[..total]) == Flatten(gs[i..j])
  {
    hide Key, EKey, Sorted, Flatten;
    var bs := ba[..j - i + 1];
    forall n | 0 <= n < total ensures ka[n] == EKey(t, a[n]) {
      assert ka[n] == ka[..total][n] && a[n] == a[..total][n];
    }
    forall l | 0 <= l < j - i ensures ba[l] <= ba[l + 1] && SortedList(t, a, ba[l], ba[l + 1]) {
      assert SortedList(t, a[..total], bs[l], bs[l + 1]);
      assert a[..total][ba[l]..ba[l + 1]] == a[ba[l]..ba[l + 1]];
    }
  }

  /** One descriptor's positions behind the first total. */
  method GatherPositions(t: Text, arena: array<uint16>, al: nat, d: Desc, a: array<uint32>, total: nat)
    requires al <= arena.Length && SliceInside(d, al)
    requires forall x :: 0 <= x < Len(d) ==> Listed(arena[..al], d)[x] < 0x1_0000_0000
    requires total + Len(d) <= a.Length
    modifies a
    ensures a[..total] == old(a[..total])
    ensures a[total..total + Len(d)] == Listed(arena[..al], d)
  {
    hide PosOf, Len, Off, RelOf;
    ghost var list := Listed(arena[..al], d);
    for z := 0 to Len(d)
      invariant a[..total] == old(a[..total])
      invariant forall k :: 0 <= k < z ==> a[total + k] == list[k]
    {
      assert arena[..al][Off(d) + z] == arena[Off(d) + z];
      assert list[z] == PosOf(arena[Off(d) + z], RelOf(d));
      a[total + z] := PosOf(arena[Off(d) + z], RelOf(d));
    }
    assert a[total..total + Len(d)] == list;
  }

  /** One descriptor's positions and tie-break keys behind the first total. */
  method GatherOne(t: Text, arena: array<uint16>, al: nat, d: Desc, a: array<uint32>, ka: array<uint64>, total: nat)
    requires al <= arena.Length && SliceInside(d, al)
    requires forall x :: 0 <= x < Len(d) ==> Listed(arena[..al], d)[x] < 0x1_0000_0000
    requires total + Len(d) <= a.Length && total + Len(d) <= ka.Length
    modifies a, ka
    ensures a[..total] == old(a[..total]) && ka[..total] == old(ka[..total])
    ensures a[total..total + Len(d)] == Listed(arena[..al], d)
    ensures forall n :: total <= n < total + Len(d) ==> ka[n] == EKey(t, a[n])
  {
    hide PosOf, EKey, Len, Off, RelOf, Listed, SliceInside;
    GatherPositions(t, arena, al, d, a, total);
    ghost var s := a[..];
    for z := 0 to Len(d)
      invariant a[..] == s && ka[..total] == old(ka[..total])
      invariant forall n :: total <= n < total + z ==> ka[n] == EKey(t, s[n])
    {
      ka[total + z] := EKey64(t, a[total + z]);
    }
  }

  /** The descriptors ds[..dl] stand for the lists gs, all usable. */
  ghost predicate Described(t: Text, arena: seq<uint16>, ds: seq<Desc>, gs: seq<Group>) {
    && SlicesInside(ds, |arena|) && gs == ExpandAll(arena, ds) && GroupsOk(t, gs)
    && |t| <= OFF_LIMIT
  }

  lemma DescribedAt(t: Text, arena: seq<uint16>, ds: seq<Desc>, gs: seq<Group>, k: nat)
    requires Described(t, arena, ds, gs) && k < |ds|
    ensures |gs| == |ds| && SliceInside(ds[k], |arena|) && GroupOk(t, gs[k])
    ensures Listed(arena, ds[k]) == Positions(gs[k]) && |Positions(gs[k])| == Len(ds[k]) > 0
    ensures gs[k].key == KeyOf(ds[k]) && gs[k].rel == RelOf(ds[k])
    ensures forall x :: 0 <= x < Len(ds[k]) ==> Listed(arena, ds[k])[x] < |t| <= OFF_LIMIT
  {
    hide Ascending, Key;
    assert Positions(gs[k]) == Listed(arena, ds[k]);
  }

  lemma FlattenGrows(gs: seq<Group>, i: nat, k: nat, j: nat)
    requires i <= k <= j <= |gs|
    ensures |Flatten(gs[i..k])| <= |Flatten(gs[i..j])|
  {
    hide Flatten;
    assert gs[i..j] == gs[i..k] + gs[k..j];
    FlattenConcat(gs[i..k], gs[k..j]);
  }

  /** GatherOne, and what it does to the layout. */
  method AddList(t: Text, arena: array<uint16>, al: nat, d: Desc, a: array<uint32>, ka: array<uint64>, total: nat,
                 ghost gs: seq<Group>, ghost i: nat, ghost k: nat, ghost key: nat, ghost bs: seq<uint32>)
    requires al <= arena.Length && SliceInside(d, al) && total + Len(d) <= GROUP_CAP
    requires total + Len(d) <= a.Length && total + Len(d) <= ka.Length
    requires k < |gs| && GroupOk(t, gs[k]) && gs[k].key == key && Listed(arena[..al], d) == Positions(gs[k])
    requires forall x :: 0 <= x < Len(d) ==> Listed(arena[..al], d)[x] < |t| <= OFF_LIMIT
    requires GatherState(t, gs, i, k, key, a[..total], ka[..total], bs)
    modifies a, ka
    ensures GatherState(t, gs, i, k + 1, key, a[..total + Len(d)], ka[..total + Len(d)], bs + [total + Len(d)])
  {
    hide Key, EKey, Flatten, GatherState, GroupOk, Listed, Len, Off, RelOf, PosOf, Positions;
    ghost var a0, ka0, end := a[..total], ka[..total], total + Len(d);
    GatherOne(t, arena, al, d, a, ka, total);
    assert a[..end] == a0 + a[total..end] && ka[..end] == ka0 + ka[total..end];
    forall n | 0 <= n < Len(d) ensures ka[total..end][n] == EKey(t, a[total..end][n]) {
      assert ka[total..end][n] == ka[total + n] && a[total..end][n] == a[total + n];
    }
    GatherNext(t, gs, i, k, key, a0, ka0, bs, a[total..end], ka[total..end]);
  }

  /** Gather descriptors i..j, giving up as soon as the group is past the cap. */
  method Gather(t: Text, arena: array<uint16>, al: nat, ds: array<Desc>, dl: nat, i: nat, j: nat,
                a: array<uint32>, ka: array<uint64>, ba: array<uint32>, ghost gs: seq<Group>, ghost key: nat)
    returns (ok: bool, total: nat)
    requires i < j <= dl <= ds.Length && al <= arena.Length && j - i <= GROUP_CAP
    requires Described(t, arena[..al], ds[..dl], gs) && |gs| == dl
    requires forall x :: i <= x < j ==> gs[x].key == key
    requires a != ba && GROUP_CAP <= a.Length && GROUP_CAP <= ka.Length && GROUP_CAP < ba.Length
    modifies a, ka, ba
    ensures !ok ==> |Flatten(gs[i..j])| > GROUP_CAP
    ensures ok ==> total == |Flatten(gs[i..j])| <= GROUP_CAP
    ensures ok ==> Lists(t, a[..], ka[..], ba[..], j - i, total, key) && total <= a.Length
    ensures ok ==> multiset(a[..total]) == Flatten(gs[i..j])
  {
    hide Described, Key, EKey, Flatten, GatherState, Lists, GroupOk, Listed, Len, Off, RelOf, PosOf, Positions;
    ghost var ar, sd := arena[..al], ds[..dl];
    total := 0;
    ghost var bs: seq<uint32> := [0];
    GatherStart(t, gs, i, key);
    assert a[..0] == [] && ka[..0] == [];
    for k := i to j
      invariant total <= GROUP_CAP && |bs| == k - i + 1 && bs[k - i] == total && ba[..k - i] == bs[..k - i]
      invariant GatherState(t, gs, i, k, key, a[..total], ka[..total], bs)
    {
      DescribedAt(t, ar, sd, gs, k);
      assert ds[k] == sd[k];
      GatherSize(t, gs, i, k, key, a[..total], ka[..total], bs, sd[k]);
      Set(ba, k - i, total);
      assert ba[..k - i + 1] == bs;
      if total + Len(ds[k]) > GROUP_CAP {
        FlattenGrows(gs, i, k + 1, j);
        return false, total;
      }
      AddList(t, arena, al, ds[k], a, ka, total, gs, i, k, key, bs);
      total := total + Len(ds[k]);
      bs := bs + [total];
    }
    Set(ba, j - i, total);
    assert ba[..j - i + 1] == bs;
    GatherCount(t, gs, i, j, key, a[..total], ka[..total], bs);
    assert a[..][..total] == a[..total] && ka[..][..total] == ka[..total] && ba[..][..j - i + 1] == ba[..j - i + 1];
    GatherEnd(t, gs, i, j, key, total, a[..], ka[..], ba[..]);
    ok := true;
  }

  lemma GatherCount(t: Text, gs: seq<Group>, i: nat, k: nat, key: nat, a: seq<uint32>, ka: seq<uint64>, bs: seq<uint32>)
    requires GatherState(t, gs, i, k, key, a, ka, bs)
    ensures i <= k <= |gs| && |Flatten(gs[i..k])| == |a|
  {
    hide Flatten;
    assert |multiset(a)| == |a|;
  }

  lemma GatherSize(t: Text, gs: seq<Group>, i: nat, k: nat, key: nat, a: seq<uint32>, ka: seq<uint64>, bs: seq<uint32>,
                   d: Desc)
    requires k < |gs| && GatherState(t, gs, i, k, key, a, ka, bs) && |Positions(gs[k])| == Len(d)
    ensures |Flatten(gs[i..k + 1])| == |a| + Len(d)
  {
    hide Flatten;
    GatherCount(t, gs, i, k, key, a, ka, bs);
    assert gs[i..k + 1] == gs[i..k] + [gs[k]];
    FlattenSnoc(gs[i..k], gs[k]);
  }

  /** A single list left is the sorted group. */
  lemma OneListLeft(t: Text, a: seq<uint32>, ka: seq<uint64>, ba: seq<uint32>, total: nat, key: nat)
    requires Lists(t, a, ka, ba, 1, total, key)
    ensures total <= |a| && InText(t, a[..total]) && Sorted(t, a[..total])
  {
    assert SortedList(t, a, ba[0], ba[1]);
    assert a[0..total] == a[..total];
  }

  /** Merge until one list is left; the buffers change roles after every level. */
  method MergeLists(t: Text, s: Scratch, nlist0: nat, total: nat, ghost key: nat, ghost all: multiset<nat>)
    returns (sorted: array<uint32>)
    requires s.Valid() && 0 < nlist0 <= GROUP_CAP && total <= GROUP_CAP
    requires Lists(t, s.merge[..], s.mkey[..], s.bnd[..], nlist0, total, key) && multiset(s.merge[..total]) == all
    modifies s.merge, s.merge2, s.mkey, s.mkey2, s.bnd, s.bnd2
    ensures sorted == s.merge || sorted == s.merge2
    ensures InText(t, sorted[..total]) && Sorted(t, sorted[..total]) && multiset(sorted[..total]) == all
  {
    hide Lists, Sorted;
    var a, ka, ba := s.merge, s.mkey, s.bnd;
    var b, kb, bb := s.merge2, s.mkey2, s.bnd2;
    var nlist := nlist0;
    while nlist > 1
      invariant 0 < nlist <= GROUP_CAP
      invariant (a == s.merge && b == s.merge2) || (a == s.merge2 && b == s.merge)
      invariant (ka == s.mkey && kb == s.mkey2) || (ka == s.mkey2 && kb == s.mkey)
      invariant (ba == s.bnd && bb == s.bnd2) || (ba == s.bnd2 && bb == s.bnd)
      invariant Lists(t, a[..], ka[..], ba[..], nlist, total, key) && multiset(a[..total]) == all
    {
      var outLists := MergeLevel(t, a, ka, ba, b, kb, bb, nlist, total, key);
      a, b := b, a;
      ka, kb := kb, ka;
      ba, bb := bb, ba;
      nlist := outLists;
    }
    OneListLeft(t, a[..], ka[..], ba[..], total, key);
    assert a[..][..total] == a[..total];
    sorted := a;
  }

  /** Small groups are insertion sorted, large ones merged; either way the same array. */
  method SortGathered(t: Text, s: Scratch, nlist: nat, total: nat, ghost key: nat, ghost all: multiset<nat>)
    returns (sorted: array<uint32>)
    requires s.Valid() && 0 < nlist <= GROUP_CAP && 0 < total <= GROUP_CAP
    requires Lists(t, s.merge[..], s.mkey[..], s.bnd[..], nlist, total, key) && multiset(s.merge[..total]) == all
    modifies s.merge, s.merge2, s.mkey, s.mkey2, s.bnd, s.bnd2
    ensures sorted == s.merge || sorted == s.merge2
    ensures InText(t, sorted[..total]) && Sorted(t, sorted[..total]) && multiset(sorted[..total]) == all
  {
    hide Sorted, Key, EKey, Gathered;
    if total <= SMALL_GROUP {
      SmallSort(t, s.merge, s.mkey, total, key);
      sorted := s.merge;
    } else {
      sorted := MergeLists(t, s, nlist, total, key, all);
    }
  }
}

/** The merge phase of dsa_descriptor_suffix_array: walk the sorted descriptors one key group at a
    time and write each group's positions to their final places. */
module WriteOut {
  import opened MachineTypes
  import opened SuffixOrder
  import opened Keys
  import opened Descriptors
  import opened NaiveCoverage
  import opened KeyGroups
  import opened Merging
  import opened TwoLists
  import opened Gathering
  import opened ScratchSpace
  import opened Arrays

  /** Some padded key occurs at more positions than a merge buffer holds. */
  ghost predicate KeyOverflows(t: Text) {
    exists k :: |Occurring(t, k)| > GROUP_CAP
  }

  predicate Stands(t: Text, p: nat, a: byte, b: byte, c: byte) {
    ByteAt(t, p) == a && ByteAt(t, p + 1) == b && ByteAt(t, p + 2) == c
  }

  /** The positions at which the bytes a, b, c stand, zeros past the end included. */
  ghost function StandingAt(t: Text, a: byte, b: byte, c: byte): set<nat> {
    set p | 0 <= p < |t| && Stands(t, p, a, b, c)
  }

  lemma StandingIsOccurring(t: Text, a: byte, b: byte, c: byte)
    ensures StandingAt(t, a, b, c) == Occurring(t, a as int * 0x1_0000 + b as int * 0x100 + c as int)
  {}

  lemma OccurringStands(t: Text, k: nat) returns (a: byte, b: byte, c: byte)
    requires Occurring(t, k) != {}
    ensures StandingAt(t, a, b, c) == Occurring(t, k)
  {
    var p :| p in Occurring(t, k);
    a, b, c := ByteAt(t, p), ByteAt(t, p + 1), ByteAt(t, p + 2);
    StandingIsOccurring(t, a, b, c);
  }

  /** In numbers: some three bytes stand at more than 4,096 positions. */
  lemma KeyOverflowsIs(t: Text)
    ensures KeyOverflows(t) <==> exists a: byte, b: byte, c: byte :: |StandingAt(t, a, b, c)| > 4096
  {
    hide Key, Occurring, StandingAt;
    if k :| |Occurring(t, k)| > GROUP_CAP {
      var a, b, c := OccurringStands(t, k);
      assert |StandingAt(t, a, b, c)| > 4096;
    }
    if a: byte, b: byte, c: byte :| |StandingAt(t, a, b, c)| > 4096 {
      StandingIsOccurring(t, a, b, c);
      assert KeyOverflows(t);
    }
  }

  /** The cap from both sides: a text of zeros overflows exactly when it is longer than 4,096. */
  lemma ZerosOverflowExactly(t: Text)
    requires forall p :: 0 <= p < |t| ==> t[p] == 0
    ensures KeyOverflows(t) <==> |t| > 4096
  {
    forall k ensures |Occurring(t, k)| <= |t| { BoundedSet(Occurring(t, k), |t|); }
    FullSet(Occurring(t, 0), |t|);
  }

  /** The groups before i are written, none of them was past the cap, and i starts a new key. */
  ghost predicate WriteState(t: Text, gs: seq<Group>, i: nat, r: seq<nat>) {
    && WrittenOut(t, gs, i, r)
    && (i < |gs| ==> forall x :: 0 <= x < i ==> gs[x].key < gs[i].key)
    && (forall x :: 0 <= x < i ==> |Occurring(t, gs[x].key)| <= GROUP_CAP)
  }

  lemma WriteStart(t: Text, gs: seq<Group>)
    ensures WriteState(t, gs, 0, [])
  {
    assert gs[..0] == [];
    FlattenNone();
  }

  /** Equal keys up to j and another key at j is a maximal group. */
  lemma ScannedGroup(t: Text, gs: seq<Group>, i: nat, j: nat, r: seq<nat>)
    requires Sortable(t, gs) && WriteState(t, gs, i, r) && i < j <= |gs|
    requires forall x :: i <= x < j ==> gs[x].key == gs[i].key
    requires j < |gs| ==> gs[j].key != gs[i].key
    ensures IsKeyGroup(gs, i, j)
  {
    hide GroupsOk, Flatten, WrittenOut, Covers;
  }

  lemma WriteNext(t: Text, gs: seq<Group>, i: nat, j: nat, r: seq<nat>, w: seq<nat>)
    requires Sortable(t, gs) && WriteState(t, gs, i, r) && IsKeyGroup(gs, i, j)
    requires InText(t, w) && Sorted(t, w) && multiset(w) == Flatten(gs[i..j]) && |Flatten(gs[i..j])| <= GROUP_CAP
    ensures WriteState(t, gs, j, r + w)
  {
    hide Sorted, Flatten, GroupsOk, Covers, WrittenOut, Occurring;
    KeyGroupHolds(t, gs, i, j);
    GroupAppends(t, gs, i, j, r, w);
  }

  /** A group past the cap is a key past the cap. */
  lemma GroupOverflows(t: Text, gs: seq<Group>, i: nat, j: nat)
    requires Sortable(t, gs) && IsKeyGroup(gs, i, j) && |Flatten(gs[i..j])| > GROUP_CAP
    ensures KeyOverflows(t)
  {
    KeyGroupHolds(t, gs, i, j);
    hide Occurring;
  }

  /** All groups written: the array is the suffix array and no key was past the cap. */
  lemma WriteEnd(t: Text, gs: seq<Group>, r: seq<nat>)
    requires Sortable(t, gs) && WriteState(t, gs, |gs|, r)
    ensures IsSuffixArray(t, r) && !KeyOverflows(t)
  {
    CompleteIsSuffixArray(t, gs, r);
    forall k ensures |Occurring(t, k)| <= GROUP_CAP {
      if Occurring(t, k) != {} {
        var p :| p in Occurring(t, k);
        CoveredOnce(Flatten(gs), |t|, p);
        assert p in Flatten(gs);
        var x := FlattenHasKey(t, gs, p);
        assert gs[x].key == k;
      }
    }
  }

  predicate KeyEq(d: Desc, e: Desc) { KeyOf(d) == KeyOf(e) }

  lemma KeyEqIs(t: Text, arena: seq<uint16>, ds: seq<Desc>, gs: seq<Group>, x: nat, y: nat)
    requires Described(t, arena, ds, gs) && x < |ds| && y < |ds|
    ensures |gs| == |ds| && (KeyEq(ds[x], ds[y]) <==> gs[x].key == gs[y].key)
  {
    hide GroupsOk;
  }

  /** One list that shares its key with nobody. The scalar build may write up to three words past
      it; they lie before |t| and a later list overwrites them. */
  method WriteSingle(vectors: bool, t: Text, arena: array<uint16>, al: nat, ds: array<Desc>, dl: nat, i: nat,
                     sa: array<int32>, out: nat,
                     ghost gs: seq<Group>, ghost r: seq<nat>) returns (out': nat, ghost r': seq<nat>)
    requires al + 8 <= arena.Length && i < dl <= ds.Length
    requires Described(t, arena[..al], ds[..dl], gs) && Sortable(t, gs) && |gs| == dl
    requires out <= |t| <= sa.Length && sa[..out] == r && WriteState(t, gs, i, r)
    requires i + 1 < dl ==> !KeyEq(ds[i], ds[i + 1])
    modifies sa
    ensures out' <= |t| && sa[..out'] == r' && WriteState(t, gs, i + 1, r')
    ensures sa[|t|..] == old(sa[|t|..])
  {
    hide Described, Sortable, WriteState, Listed, Len, Off, RelOf, KeyEq, Sorted, Positions, Flatten, SliceInside;
    SingleFacts(t, arena[..al], ds[..dl], gs, i, r);
    if vectors {
      ghost var before := sa[..];
      StoreList(arena, al, ds[i], sa, out);
      Behind(before, sa[..], out + Len(ds[i]), |t|);
    } else {
      StoreListScalar(arena, al, ds[i], sa, |t|, out);
    }
    out', r' := out + Len(ds[i]), r + Positions(gs[i]);
    WriteNext(t, gs, i, i + 1, r, Positions(gs[i]));
  }

  /** What a store needs to know about a list whose key differs from the next one's. */
  lemma SingleFacts(t: Text, arena: seq<uint16>, ds: seq<Desc>, gs: seq<Group>, i: nat, r: seq<nat>)
    requires Described(t, arena, ds, gs) && Sortable(t, gs) && WriteState(t, gs, i, r) && i < |ds|
    requires i + 1 < |ds| ==> !KeyEq(ds[i], ds[i + 1])
    ensures |gs| == |ds| && IsKeyGroup(gs, i, i + 1) && SliceInside(ds[i], |arena|)
    ensures var a := Positions(gs[i]);
            && Listed(arena, ds[i]) == a && |a| == Len(ds[i]) && |r| + |a| <= |t| <= OFF_LIMIT
            && InText(t, a) && Sorted(t, a) && multiset(a) == Flatten(gs[i..i + 1])
            && |Flatten(gs[i..i + 1])| <= GROUP_CAP
  {
    hide Described, Sortable, WriteState, Listed, Len, KeyEq, Sorted, Positions, Flatten;
    DescribedAt(t, arena, ds, gs, i);
    if i + 1 < |ds| { KeyEqIs(t, arena, ds, gs, i, i + 1); }
    ScannedGroup(t, gs, i, i + 1, r);
    SortableOk(t, gs);
    SingleGroup(t, gs, i);
    StateFits(t, gs, i, i + 1, r);
    assert |multiset(Positions(gs[i]))| == |Positions(gs[i])|;
    SmallLen(ds[i]);
  }

  lemma SmallLen(d: Desc)
    ensures Len(d) < GROUP_CAP
  {}

  lemma SortableOk(t: Text, gs: seq<Group>)
    requires Sortable(t, gs)
    ensures GroupsOk(t, gs)
  {}

  lemma StateFits(t: Text, gs: seq<Group>, i: nat, j: nat, r: seq<nat>)
    requires Sortable(t, gs) && i <= j <= |gs| && WriteState(t, gs, i, r)
    ensures |r| + |Flatten(gs[i..j])| <= |t|
    ensures j == |gs| ==> |r| + |Flatten(gs[i..j])| == |t|
  {
    GroupFits(t, gs, i, j, r);
  }

  lemma ListFacts(t: Text, g: Group, key: nat)
    requires GroupOk(t, g) && g.key == key
    ensures OneKey(t, Positions(g), key) && Sorted(t, Positions(g))
  {
    hide Key, Less;
  }

  /** Two descriptors under one key. */
  method WriteTwo(t: Text, arena: array<uint16>, al: nat, ds: array<Desc>, dl: nat, i: nat, sa: array<int32>, out: nat,
                  ghost gs: seq<Group>, ghost r: seq<nat>) returns (ok: bool, out': nat, ghost r': seq<nat>)
    requires al <= arena.Length && i + 2 <= dl <= ds.Length
    requires Described(t, arena[..al], ds[..dl], gs) && Sortable(t, gs) && |gs| == dl
    requires out <= |t| <= sa.Length && sa[..out] == r && WriteState(t, gs, i, r)
    requires IsKeyGroup(gs, i, i + 2)
    modifies sa
    ensures !ok ==> KeyOverflows(t)
    ensures ok ==> out' <= |t| && sa[..out'] == r' && WriteState(t, gs, i + 2, r')
    ensures sa[|t|..] == old(sa[|t|..])
  {
    hide Described, Sortable, WriteState, Listed, Len, Off, RelOf, KeyOf, Sorted, Positions, Flatten, KeyOverflows,
         PosOf, SliceInside, OneKey;
    ghost var ar, sd := arena[..al], ds[..dl];
    ghost var a, b := Positions(gs[i]), Positions(gs[i + 1]);
    DescribedAt(t, ar, sd, gs, i);
    DescribedAt(t, ar, sd, gs, i + 1);
    TwoFlatten(gs, i);
    StateFits(t, gs, i, i + 2, r);
    assert |multiset(a)| == |a| && |multiset(b)| == |b|;
    out', r' := out, r;
    ok := Len(ds[i]) + Len(ds[i + 1]) <= GROUP_CAP;
    if !ok {
      GroupOverflows(t, gs, i, i + 2);
      return;
    }
    ListFacts(t, gs[i], gs[i].key);
    ListFacts(t, gs[i + 1], gs[i].key);
    ListedIn(arena, al, ds[i], a);
    ListedIn(arena, al, ds[i + 1], b);
    ghost var before := sa[..];
    ghost var w := MergeTwoLists(t, arena, ds[i], ds[i + 1], sa, out, a, b, gs[i].key);
    Behind(before, sa[..], out + Len(ds[i]) + Len(ds[i + 1]), |t|);
    out', r' := out + Len(ds[i]) + Len(ds[i + 1]), r + w;
    WriteNext(t, gs, i, i + 2, r, w);
  }

  lemma ListedIn(arena: array<uint16>, al: nat, d: Desc, a: seq<nat>)
    requires al <= arena.Length && SliceInside(d, al) && Listed(arena[..al], d) == a
    ensures |a| == Len(d) > 0 && Off(d) + Len(d) <= arena.Length
    ensures forall x :: 0 <= x < |a| ==> a[x] == PosOf(arena[Off(d) + x], RelOf(d))
  {
    hide PosOf, Off, Len, RelOf;
    forall x | 0 <= x < |a| ensures a[x] == PosOf(arena[Off(d) + x], RelOf(d)) {
      assert arena[..al][Off(d) + x] == arena[Off(d) + x];
    }
  }

  lemma TwoFlatten(gs: seq<Group>, i: nat)
    requires i + 2 <= |gs|
    ensures Flatten(gs[i..i + 2]) == multiset(Positions(gs[i])) + multiset(Positions(gs[i + 1]))
  {
    hide Flatten, Positions;
    assert gs[i..i + 2] == [gs[i]] + [gs[i + 1]];
    FlattenOne(gs[i]);
    FlattenSnoc([gs[i]], gs[i + 1]);
  }

  /** Three descriptors or more under one key. */
  method WriteMany(t: Text, s: Scratch, al: nat, dl: nat, i: nat, j: nat, sa: array<int32>, out: nat,
                   ghost gs: seq<Group>, ghost r: seq<nat>)
    returns (ok: bool, out': nat, ghost r': seq<nat>)
    requires s.Valid() && al <= s.arena.Length && i < j <= dl <= s.desc.Length && |t| <= OFF_LIMIT
    requires Described(t, s.arena[..al], s.desc[..dl], gs) && Sortable(t, gs) && |gs| == dl
    requires out <= |t| <= sa.Length && sa[..out] == r && WriteState(t, gs, i, r)
    requires IsKeyGroup(gs, i, j)
    modifies sa, s.merge, s.merge2, s.mkey, s.mkey2, s.bnd, s.bnd2
    ensures !ok ==> KeyOverflows(t)
    ensures ok ==> out' <= |t| && sa[..out'] == r' && WriteState(t, gs, j, r')
    ensures sa[|t|..] == old(sa[|t|..])
  {
    hide Described, Sortable, WriteState, Sorted, Flatten, KeyOverflows, MergeTree.Lists;
    out', r' := out, r;
    GroupSize(t, s.arena[..al], s.desc[..dl], gs, i, j);
    if j - i > GROUP_CAP {
      GroupOverflows(t, gs, i, j);
      return false, out, r;
    }
    ghost var all := Flatten(gs[i..j]);
    var total;
    ok, total := Gather(t, s.arena, al, s.desc, dl, i, j, s.merge, s.mkey, s.bnd, gs, gs[i].key);
    if !ok {
      GroupOverflows(t, gs, i, j);
      return;
    }
    StateFits(t, gs, i, j, r);
    var sorted := SortGathered(t, s, j - i, total, gs[i].key, all);
    assert sa[..out] == r;
    ghost var w: seq<nat> := sorted[..total];
    ghost var before := sa[..];
    CopyOut(t, sorted, total, sa, out);
    Behind(before, sa[..], out + total, |t|);
    out', r' := out + total, r + w;
    WriteNext(t, gs, i, j, r, w);
  }

  /** Every descriptor holds at least one position. */
  lemma {:induction false} GroupSize(t: Text, arena: seq<uint16>, ds: seq<Desc>, gs: seq<Group>, i: nat, j: nat)
    requires Described(t, arena, ds, gs) && i <= j <= |gs|
    ensures |Flatten(gs[i..j])| >= j - i
    decreases j
  {
    hide Described, Flatten, Positions;
    if i < j {
      GroupSize(t, arena, ds, gs, i, j - 1);
      DescribedLen(t, arena, ds, gs);
      DescribedAt(t, arena, ds, gs, j - 1);
      assert gs[i..j] == gs[i..j - 1] + [gs[j - 1]];
      FlattenSnoc(gs[i..j - 1], gs[j - 1]);
      assert |multiset(Positions(gs[j - 1]))| == |Positions(gs[j - 1])|;
    }
  }

  lemma DescribedLen(t: Text, arena: seq<uint16>, ds: seq<Desc>, gs: seq<Group>)
    requires Described(t, arena, ds, gs)
    ensures |gs| == |ds|
  {
    hide GroupsOk;
  }

  /** memcpy of the sorted group to its place. */
  method CopyOut(t: Text, a: array<uint32>, total: nat, sa: array<int32>, out: nat)
    requires |t| <= OFF_LIMIT && total <= a.Length && out + total <= sa.Length && InText(t, a[..total])
    modifies sa
    ensures sa[..out + total] == old(sa[..out]) + a[..total]
    ensures sa[out + total..] == old(sa[out + total..])
  {
    forall k | 0 <= k < total ensures a[k] < |t| { assert a[..total][k] == a[k]; }
    forall k | 0 <= k < total { sa[out + k] := a[k]; }
  }

  /** The end of the key group that starts at i. */
  method ScanGroup(t: Text, arena: array<uint16>, al: nat, ds: array<Desc>, dl: nat, i: nat,
                   ghost gs: seq<Group>, ghost r: seq<nat>) returns (j: nat)
    requires al <= arena.Length && i + 1 < dl <= ds.Length
    requires Described(t, arena[..al], ds[..dl], gs) && Sortable(t, gs) && |gs| == dl && WriteState(t, gs, i, r)
    requires KeyEq(ds[i], ds[i + 1])
    ensures i + 2 <= j <= dl && IsKeyGroup(gs, i, j)
  {
    hide Described, Sortable, WriteState, KeyEq;
    ghost var ar, sd := arena[..al], ds[..dl];
    KeyEqIs(t, ar, sd, gs, i, i + 1);
    assert ds[i] == sd[i] && ds[i + 1] == sd[i + 1];
    j := i + 1;
    while j < dl && KeyEq(ds[i], ds[j])
      invariant i < j <= dl
      invariant forall x :: i <= x < j ==> gs[x].key == gs[i].key
    {
      KeyEqIs(t, ar, sd, gs, i, j);
      assert ds[j] == sd[j];
      j := j + 1;
    }
    if j < dl {
      KeyEqIs(t, ar, sd, gs, i, j);
      assert ds[j] == sd[j];
    }
    ScannedGroup(t, gs, i, j, r);
  }

  /** The merge phase. It answers -6 exactly when some key is past the cap, and otherwise leaves
      the suffix array, with either kind of store; -5 would need the counts not to close, and they
      do. */
  method WriteSuffixes(vectors: bool, t: Text, s: Scratch, al: nat, dl: nat, sa: array<int32>, ghost gs: seq<Group>)
    returns (rc: int, ghost r: seq<nat>)
    requires s.Valid() && al + 8 <= s.arena.Length && dl <= s.desc.Length && |t| <= OFF_LIMIT
    requires Described(t, s.arena[..al], s.desc[..dl], gs) && Sortable(t, gs) && |gs| == dl
    requires |t| <= sa.Length
    modifies sa, s.merge, s.merge2, s.mkey, s.mkey2, s.bnd, s.bnd2
    ensures rc == 0 || rc == -6
    ensures rc == -6 <==> KeyOverflows(t)
    ensures rc == 0 ==> sa[..|t|] == r && IsSuffixArray(t, r)
    ensures sa[|t|..] == old(sa[|t|..])
  {
    hide Described, Sortable, WriteState, KeyEq, KeyOverflows, IsKeyGroup, Len, IsSuffixArray;
    var i: nat, out: nat := 0, 0;
    r := [];
    WriteStart(t, gs);
    assert sa[..0] == [];
    ghost var ar, sd := s.arena[..al], s.desc[..dl];
    while i < dl
      invariant i <= dl && out <= |t| && sa[..out] == r && WriteState(t, gs, i, r)
      invariant s.arena[..al] == ar && s.desc[..dl] == sd
      invariant sa[|t|..] == old(sa[|t|..])
    {
      if vectors && i + 2 < dl && !KeyEq(s.desc[i], s.desc[i + 1]) && !KeyEq(s.desc[i + 1], s.desc[i + 2])
         && Len(s.desc[i]) <= 8 && Len(s.desc[i + 1]) <= 8 {
        // two short lists per iteration
        out, r := WriteSingle(vectors, t, s.arena, al, s.desc, dl, i, sa, out, gs, r);
        out, r := WriteSingle(vectors, t, s.arena, al, s.desc, dl, i + 1, sa, out, gs, r);
        i := i + 2;
        continue;
      }
      if i + 1 == dl || !KeyEq(s.desc[i], s.desc[i + 1]) {
        out, r := WriteSingle(vectors, t, s.arena, al, s.desc, dl, i, sa, out, gs, r);
        i := i + 1;
        continue;
      }
      var j := ScanGroup(t, s.arena, al, s.desc, dl, i, gs, r);
      var ok;
      if j == i + 2 {
        ok, out, r := WriteTwo(t, s.arena, al, s.desc, dl, i, sa, out, gs, r);
      } else {
        ok, out, r := WriteMany(t, s, al, dl, i, j, sa, out, gs, r);
      }
      if !ok { return -6, r; }
      i := j;
    }
    WriteEnd(t, gs, r);
    FullLength(t, r);
    assert out == |t|;
    rc := if out == |t| then 0 else -5;
  }

  lemma FullLength(t: Text, r: seq<nat>)
    requires IsSuffixArray(t, r)
    ensures |r| == |t|
  {}
}
